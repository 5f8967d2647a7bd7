# Solicitud workflow engine — a Dafny model

This project models the approval workflow for licensing requests
("solicitudes") that the backend of the system runs. A solicitud is created
in "Recibido Inspección y Vigilancia". Then it moves through process events
(document check by IyV, filing in the areas, area review, remediation
receipts, inspection visit, administrative act, closure). Each event is
checked against a constant catalog. The catalog says which roles may trigger
the event, which statuses it accepts, and which status it moves to. A
successful event updates the solicitud row and appends one row to the event
log, inside one transaction. A failed event writes nothing.

Modules:

- `Common` (common.dfy): `Option`, `Result`, and the two pieces of
  JavaScript string semantics the controller relies on: truthiness and
  `includes`.
- `ProcessEvents` (process_events.dfy): `ROLES`, the `PROCESS_EVENTS` table
  as constants, `getProcessEventByName`, and lemmas about the table.
- `SolicitudRules` (solicitud_rules.dfy): the data model (`Record`,
  `AuditEntry`, `Submission`, `CreateRequest`, `Error`, `Update`) and the
  specification functions.
  - `Guard`: the checks before any write.
  - `NextStatus`, `Fields`, `Deadline` and `Resolve`: the per-event decision.
  - `Overlay`: the `UPDATE` built from the collected fields.
  - `Handle`: one process-event call.
  - `Create`: one create call.
- `SolicitudProperties` (solicitud_properties.dfy): what one process-event
  call does, stated about `Handle`, including the controller's quirks.
- `CreateProperties` (create_properties.dfy): what the create handler does.
- `EventLog` (event_log.dfy): the history of one solicitud in the event log,
  and the effect of the cascade delete on it.
- `SolicitudStore` (solicitud_store.dfy): the controller as it runs.
  - The decision is taken step by step, as in the source: the document-check
    block, then the `switch`, then the update loop. Each step is a method
    proved equal to the specification function.
  - A `Store` class holds the two tables and the auto-increment counter. Its
    methods `CreateSolicitud`, `HandleProcessEvent` and `DeleteSolicitud`
    run the handlers; the first and the last check their route's role list
    first. They keep an invariant: ids match keys, radicados are unique, every event row
    belongs to a stored solicitud, and every stored solicitud has a history.

Modelling choices:

- **Dates** are day numbers. `now` is passed in.
- **Filing deadline:** `limit` is passed in. It stands for the six-month
  filing deadline.
- **Statuses and result codes** are strings. The controller tests results
  with `includes`, and `cierre_solicitud` stores whatever status it is sent.
- **Roles** are a datatype of the five roles the routes admit.
- **Absent request fields:** a body field that is absent (`undefined`) is
  `None`.
- **Undefined bind values:** the database driver (mysql2) refuses a
  statement with an `undefined` bind value. The transaction then rolls back.
  The model reports this as `UndefinedBind` and writes nothing. It covers:
  - an unmapped result of a visit;
  - a `cierre_solicitud` without a result;
  - an absent comment;
  - an absent field of a create request.

In several places the controller does something other than what the
catalog or the status names suggest. The model follows the controller:

- The document-check block sets provisional statuses
  (solicitudController.js:220-229), but the `switch` overwrites them with the
  catalog's `nextStates` target. So a document check with the OK result leads
  to "Para Radicación en Áreas", not to "Verificación por Áreas".
- `cierre_solicitud` stores whatever result it is sent, so it can set a
  closure date while the status is not a closed one (`CierreMayReopen`).
- The remediation receipts' "Subsanación Incompleta - Cierre" result closes a
  solicitud, but the controller writes no closure date or reason for it
  (`RemediationClosureLeavesFieldsUnset`).
- A visit reads `nextStates[estado_resultado]` without checking it
  (solicitudController.js:313-316). An unmapped result binds `undefined`, so
  the call fails and the counter does not move.
- `verificacion_area` ignores its own `nextStates` map and tests substrings
  (solicitudController.js:297-303). Its approving key leads to "Para Visita o
  Acto Administrativo", a status no entry accepts (`VerificacionAreaIgnoresCatalog`,
  `ParaVisitaOActoIsDeadEnd`). A result with "No Aprobado" but without
  "Subsanación" passes the 'Aprobado' test and moves forward in the same way
  (`AreaRejectionAdvances`).
- The next-action deadline is written to the event row only
  (solicitudController.js:349-363). No column of the solicitud holds it.
- `recepcion_solicitud` has no previous status (processEvents.js:14-24), and
  the guard skips the status check for such an entry
  (solicitudController.js:189). So it can be replayed on any solicitud
  (`RecepcionReplays`).

## Model

| member | source | states |
|---|---|---|
| Common.Truthy | backend/src/controllers/solicitudController.js:239 | Definition, no contract: JavaScript truthiness of an optional string, so an absent value and "" are falsy. |
| Common.Contains | backend/src/controllers/solicitudController.js:297-300 | Definition, no contract: `String.prototype.includes`. `ContainsAt` and `ContainsSlice` state its properties. |
| Common.ContainsAt | backend/src/controllers/solicitudController.js:297-300 | A string includes `p` whenever some slice of it equals `p`. |
| Common.ContainsSlice | backend/src/controllers/solicitudController.js:297-300 | A string that includes `p` includes every slice of `p`. So a result that includes 'No Aprobado' also includes 'Aprobado'. |
| ProcessEvents.RoleNameInjective | backend/src/config/processEvents.js:3-9 | The five role tags are pairwise distinct. |
| ProcessEvents.EventsMembers | backend/src/config/processEvents.js:13-131 | The table holds exactly the nine entries, and nothing else. |
| ProcessEvents.FindByName | backend/src/config/processEvents.js:134 | `find` returns nothing exactly when no entry has the name; otherwise it returns the first entry that has it. |
| ProcessEvents.GetProcessEventByName | backend/src/config/processEvents.js:134 | The lookup returns a catalog entry with the requested name, or nothing when no entry has it. |
| ProcessEvents.NamesDistinct | backend/src/config/processEvents.js:13-131 | No two catalog entries share a name. |
| ProcessEvents.LookupFindsEntry | backend/src/config/processEvents.js:134 | Looking up an entry's own name returns that entry. |
| ProcessEvents.NameDeterminesEntry | backend/src/config/processEvents.js:13-131 | An entry of the table is determined by its name. |
| ProcessEvents.ReceiptKeysMentionSubsanacion | backend/src/config/processEvents.js:45-89 | Every result of both remediation receipts contains 'Subsanación'. |
| ProcessEvents.InitialEvent | backend/src/config/processEvents.js:14-24 | `recepcion_solicitud` is the only entry without `previousState` and the only initial one. Its `nextState` and first status option are "Recibido Inspección y Vigilancia". |
| ProcessEvents.NullNextStateOnlyForClosure | backend/src/config/processEvents.js:121-130 | `cierre_solicitud` is the only entry whose single `nextState` is null. |
| ProcessEvents.TargetsNonEmpty | backend/src/config/processEvents.js:13-131 | No `nextStates` map names the empty status, so a present key always gives a truthy status. |
| ProcessEvents.MapTargetsInCatalog | backend/src/config/processEvents.js:31-117 | Each of the six `nextStates` maps names only catalog statuses. |
| ProcessEvents.TargetsAreCatalogStatuses | backend/src/config/processEvents.js:13-131 | Every status the catalog moves to is one of nine named statuses. |
| ProcessEvents.CatalogStatusesAccepted | backend/src/config/processEvents.js:20-126 | Each of the nine catalog statuses is listed as a previous status by some entry. |
| ProcessEvents.CatalogClosure | backend/src/config/processEvents.js:20-126 | Every status the catalog moves to is accepted as a previous status by some entry. This holds for the two closed statuses too, through `cierre_solicitud`. |
| ProcessEvents.DeadlineOffsets | backend/src/config/processEvents.js:39-93 | Only the two remediation receipts carry `vencimientoDias`: 8 days for IyV, 20 for the areas. |
| ProcessEvents.ReceiptLookups | backend/src/config/processEvents.js:39-93 | Looking up the two remediation receipts by name gives their entries, with 8 and 20 days. |
| ProcessEvents.AreaRoleCoverage | backend/src/config/processEvents.js:65-93 | An area role may trigger exactly `verificacion_area` and `recepcion_subsanacion_area`. |
| ProcessEvents.AdministradorOnlyCloses | backend/src/config/processEvents.js:13-131 | 'Administrador' may trigger only `cierre_solicitud`. Every event other than the two area events and the closure is IyV's alone. |
| ProcessEvents.TerminalGate | backend/src/config/processEvents.js:126 | `cierre_solicitud` accepts exactly "Cerrada Exitosamente" and "Cerrada No Exitosa". |
| SolicitudRules.Guard | backend/src/controllers/solicitudController.js:168-200 | Definition, no contract: the lookup, the role check, the row lookup and the status check, in that order. `Guards`, `AdmittedPassesGuard` and `SuccessWasAdmitted` state its meaning. |
| SolicitudRules.NextStatus | backend/src/controllers/solicitudController.js:233-331 | Definition, no contract: the new status per event, or the failure past the guards. `CommittedStatus`, `StatusRule` and the `*Outcome` lemmas state its meaning. |
| SolicitudRules.Fields | backend/src/controllers/solicitudController.js:204-331 | Definition, no contract: the entries of `updateSolicitudFields` in insertion order. `FieldColumns`, `AreaColumns` and `ClosureColumnsNamed` state its meaning. |
| SolicitudRules.Deadline | backend/src/controllers/solicitudController.js:223-299 | Definition, no contract: the next-action deadline. `NextActionDeadline` states its meaning. |
| SolicitudRules.Resolve | backend/src/controllers/solicitudController.js:202-331 | Definition, no contract: the status, fields and deadline decided once the guards pass. `SolicitudStore.ResolveEvent` is proved equal to it. |
| SolicitudRules.Apply | backend/src/controllers/solicitudController.js:202-363 | Definition, no contract: the decision, the comment bind check and the commit. `AdmittedHandle` ties it to `Handle`. |
| SolicitudRules.Handle | backend/src/controllers/solicitudController.js:160-375 | Definition, no contract: one process-event call, guards first. `OkCommit`, `Guards` and `SolicitudStore.Decide` state its meaning. |
| SolicitudRules.Overlay | backend/src/controllers/solicitudController.js:333-346 | Definition, no contract: the `UPDATE` built from the defined fields. `OverlayFrame`, `OverlayShows` and `SolicitudStore.ApplyUpdate` state its meaning. |
| SolicitudRules.EventRow | backend/src/controllers/solicitudController.js:349-363 | Definition, no contract: the appended event row. `CommitEntry` states its meaning. |
| SolicitudRules.NewRecord | backend/src/controllers/solicitudController.js:57-68 | Definition, no contract: the inserted solicitud. `CreatedRecord` states its meaning. |
| SolicitudRules.InitialRow | backend/src/controllers/solicitudController.js:72-84 | Definition, no contract: the reception event row of a new solicitud. `CreatedEntry` states its meaning. |
| SolicitudRules.Create | backend/src/controllers/solicitudController.js:32-102 | Definition, no contract: one create call. `CreateRefusals`, `CreatedRecord` and `CreatedEntry` state its meaning. |
| SolicitudRules.SetColumn | backend/src/controllers/solicitudController.js:337-342 | Writing one defined field sets that column, and keeps the status, the identity columns and every other column. |
| SolicitudRules.OverlayFrame | backend/src/controllers/solicitudController.js:333-346 | The `UPDATE` keeps the identity columns and every updatable column that no defined field names. |
| SolicitudRules.OverlayShows | backend/src/controllers/solicitudController.js:333-346 | When no column is named twice, the updated row holds every value the fields write. |
| SolicitudProperties.AdmittedPassesGuard | backend/src/controllers/solicitudController.js:168-200 | A known event, an allowed role, an existing row and an accepted status pass the guards with that entry and row. |
| SolicitudProperties.SuccessWasAdmitted | backend/src/controllers/solicitudController.js:168-200 | A successful call named a catalog event, by a permitted role, on an existing solicitud in an accepted status. |
| SolicitudProperties.AdmittedHandle | backend/src/controllers/solicitudController.js:168-366 | Once the guards admit an entry, the call is that entry applied to the stored row. |
| SolicitudProperties.UnknownEventRejected | backend/src/controllers/solicitudController.js:168-172 | An event name the catalog does not have is refused whatever the table holds. |
| SolicitudProperties.Guards | backend/src/controllers/solicitudController.js:174-200 | The guards, in order: a role outside `allowedRoles` is forbidden; then a missing solicitud is not found; then a status outside `previousState` is refused with both the current and the expected statuses. An entry without `previousState` never fails the status check. |
| SolicitudProperties.FieldColumns | backend/src/controllers/solicitudController.js:204-331 | The columns each event collects, and no column collected twice. |
| SolicitudProperties.AreaColumns | backend/src/controllers/solicitudController.js:253-265 | An area approval column is collected exactly by `radicacion_areas`, and only for the areas it lists. |
| SolicitudProperties.ClosureColumnsNamed | backend/src/controllers/solicitudController.js:226-230 | The closure date is collected exactly by the closing events. The closure reason is collected with it exactly when the reason is present. |
| SolicitudProperties.OkCommit | backend/src/controllers/solicitudController.js:160-366 | A successful call is the decided status and fields written over the admitted row, plus the event row with the decided deadline. |
| SolicitudProperties.HandleCommits | backend/src/controllers/solicitudController.js:333-346 | The committed row is the current row with the new status and the collected fields written over it. |
| SolicitudProperties.CommittedFrame | backend/src/controllers/solicitudController.js:333-346 | The committed row has the new status, keeps its identity, holds every collected value and keeps every column the event does not name. |
| SolicitudProperties.IyvApprovalFlag | backend/src/controllers/solicitudController.js:209-217 | `aprobacion_iyv` is written only by the document check, and only with 'Aplica' or 'No Aplica' as sent. Otherwise it is kept. |
| SolicitudProperties.AreaApprovalFlags | backend/src/controllers/solicitudController.js:253-265 | An area approval becomes 'Aplica' exactly when `radicacion_areas` lists that area's tag. Otherwise it is kept, `verificacion_area` included. |
| SolicitudProperties.VisitCounter | backend/src/controllers/solicitudController.js:313-316 | `contador_visitas` goes up by exactly one on a visit and is kept by every other event. |
| SolicitudProperties.ClosureFields | backend/src/controllers/solicitudController.js:226-230 | The closure date is set to the event time exactly by a closing document check, a closing act and `cierre_solicitud`. The closure reason is written with it when present. Otherwise both are kept. |
| SolicitudProperties.FlagsNeverUnset | backend/src/controllers/solicitudController.js:204-331 | No event clears an approval flag or a closure date, and the visit counter never decreases. |
| SolicitudProperties.CommittedStatus | backend/src/controllers/solicitudController.js:233-331 | The status per event: "Recibido..." for reception; "Para Verificación en Áreas" for filing; the map's status for the result-checked events and the visit; the substring rule for area review; the submitted result for the closure. |
| SolicitudProperties.StatusRule | backend/src/controllers/solicitudController.js:233-331 | The same per-event status rule, for the status an admitted entry decides. |
| SolicitudProperties.ResultMapOutcome | backend/src/controllers/solicitudController.js:238-243 | The four result-checked events succeed exactly when the result is non-empty and a key of their map; otherwise they report an invalid result. |
| SolicitudProperties.ResultMapApplied | backend/src/controllers/solicitudController.js:238-243 | For the stored row: a result-checked event succeeds exactly when the result is non-empty and a key of its map. Otherwise it is an invalid result. |
| SolicitudProperties.ApplyNeverIllegal | backend/src/controllers/solicitudController.js:202-366 | Past the guards, a call fails only with an invalid result, a forbidden area role or an undefined bind. It never reports an unknown event, a missing solicitud or an illegal status. |
| SolicitudProperties.VisitOutcome | backend/src/controllers/solicitudController.js:313-316 | A visit succeeds exactly when the result is a key of its map. Otherwise the undefined status is refused by the driver. |
| SolicitudProperties.VerificacionAreaOutcome | backend/src/controllers/solicitudController.js:271-310 | Area review: an empty result is invalid. 'No Aprobado' with 'Subsanación' gives area remediation with a 20-day deadline. Any other result containing 'Aprobado' gives "Para Visita o Acto Administrativo". Anything else is invalid. The 403 branch is unreachable. |
| SolicitudProperties.AreaReviewApplied | backend/src/controllers/solicitudController.js:271-310 | Area review for the stored row and an area role. An empty result is invalid. A remediation result gives area remediation with now+20. Another result containing 'Aprobado' gives "Para Visita o Acto Administrativo". Anything else is invalid. |
| SolicitudProperties.AreaReviewStatus | backend/src/controllers/solicitudController.js:297-303 | For a present result and an area role, the substring tests decide the status: remediation, else "Para Visita o Acto Administrativo" when it contains 'Aprobado', else an invalid result. |
| SolicitudProperties.CierreOutcome | backend/src/controllers/solicitudController.js:318-322 | The closure stores the submitted result as the status and stamps the closure date. Without a result it is refused. |
| SolicitudProperties.CierreApplied | backend/src/controllers/solicitudController.js:318-322 | For the stored row: without a result the closure is refused; with one, the result is the status and the closure date is now. |
| SolicitudProperties.CierreResolves | backend/src/controllers/solicitudController.js:318-322 | The closure takes the result as the new status, collects only the closure columns and sets no deadline. |
| SolicitudProperties.ClosureOverlay | backend/src/controllers/solicitudController.js:333-346 | Writing the closure columns stamps the closure date and keeps the status. |
| SolicitudProperties.NextActionDeadline | backend/src/controllers/solicitudController.js:223-246 | The event row's deadline is now+8 exactly for IyV remediation (sent or received). It is now+20 exactly for area remediation (sent or received). It is null otherwise. |
| SolicitudProperties.DocumentCheckRemediation | backend/src/config/processEvents.js:31-35 | The document-check map sends a result to "Subsanación de documentos IyV" exactly when the result is that status. |
| SolicitudProperties.CommitEntry | backend/src/controllers/solicitudController.js:349-363 | The event row holds the solicitud, the event label, the time, the actor, the role tag and the comment. It holds the attachments when they are truthy and null otherwise. Its result is the one sent, else the first status option (only reception has one), else null. |
| SolicitudProperties.RecepcionReplays | backend/src/config/processEvents.js:14-24 | IyV can replay `recepcion_solicitud` on any solicitud, a closed one included. It resets the status and changes nothing else. |
| SolicitudProperties.ReplayApplied | backend/src/controllers/solicitudController.js:324-330 | For any stored row, `recepcion_solicitud` succeeds, resets the status to "Recibido Inspección y Vigilancia", changes nothing else and sets no deadline. |
| SolicitudProperties.VerificacionAreaIgnoresCatalog | backend/src/controllers/solicitudController.js:297-303 | Area review ignores its own map: the approving key, which the map sends to "Para Verificación en Áreas", leads to "Para Visita o Acto Administrativo". The remediation key agrees with the map. |
| SolicitudProperties.AreaResultKeys | backend/src/controllers/solicitudController.js:297-300 | How the substring tests read the two keys of the area-review map. |
| SolicitudProperties.AreaRejectionAdvances | backend/src/controllers/solicitudController.js:297-303 | An area result with 'No Aprobado' and without 'Subsanación' moves the solicitud to "Para Visita o Acto Administrativo" with no deadline, as an approval would. |
| SolicitudProperties.AreaMapTargets | backend/src/config/processEvents.js:71-74 | The two keys of `verificacion_area`'s map and the statuses it names for them. |
| SolicitudProperties.ParaVisitaOActoIsDeadEnd | backend/src/controllers/solicitudController.js:300-303 | No catalog entry accepts "Para Visita o Acto Administrativo", so every event except a replayed reception fails from there. |
| SolicitudProperties.NoEntryAcceptsParaVisitaOActo | backend/src/config/processEvents.js:20-126 | No catalog entry lists "Para Visita o Acto Administrativo" as a previous status. |
| SolicitudProperties.RemediationClosureLeavesFieldsUnset | backend/src/config/processEvents.js:45-89 | A remediation receipt with "Subsanación Incompleta - Cierre" closes the solicitud as unsuccessful. It writes no closure columns and still records a deadline. |
| SolicitudProperties.CierreMayReopen | backend/src/controllers/solicitudController.js:318-322 | The closure can move a closed solicitud to a status that is not closed, while stamping its closure date. |
| CreateProperties.CreateRefusals | backend/src/controllers/solicitudController.js:42-101 | Create fails for a type outside the whitelist, then for an absent field, then for a radicado already stored, then for an absent comment. It succeeds in every other case. |
| CreateProperties.CreatedRecord | backend/src/controllers/solicitudController.js:57-68 | A new solicitud holds the request's values and is in "Recibido Inspección y Vigilancia", which the document check accepts. It has no approvals, no visits, no closure, and the given deadline and creator. |
| CreateProperties.CreatedEntry | backend/src/controllers/solicitudController.js:72-84 | The reception row: the reception label, the new solicitud's status as result, the initial comment, area IyV, and no attachments or deadline. |
| CreateProperties.CreateKeepsRadicadosUnique | backend/src/controllers/solicitudController.js:93-97 | A create under a fresh id keeps radicados unique. |
| EventLog.History | backend/src/controllers/solicitudController.js:139-147 | The history of a solicitud holds every log row of that solicitud and no other row. |
| EventLog.HistoryCount | backend/src/controllers/solicitudController.js:139-147 | Each row of the solicitud occurs in its history as often as in the log. |
| EventLog.HistoryConcat | backend/src/controllers/solicitudController.js:139-147 | The history of two logs joined is the first history followed by the second, so the history keeps log order. |
| EventLog.WithoutSolicitud | backend/src/controllers/solicitudController.js:383 | The delete keeps exactly the rows of the other solicitudes. |
| EventLog.HistoryAppend | backend/src/controllers/solicitudController.js:349-363 | Appending a row extends its own solicitud's history and no other. |
| EventLog.HistoryOfAbsent | backend/src/controllers/solicitudController.js:139-147 | A log without rows of a solicitud gives it an empty history. |
| EventLog.DeleteClearsHistory | backend/src/controllers/solicitudController.js:383 | After the delete no row of the solicitud is left. |
| EventLog.DeleteKeepsOtherHistories | backend/src/controllers/solicitudController.js:383 | The delete leaves every other solicitud's history as it was, in order. |
| EventLog.DeleteCount | backend/src/controllers/solicitudController.js:383 | The delete removes exactly as many rows as the solicitud's history holds. |
| EventLog.HandleAppendsToHistory | backend/src/controllers/solicitudController.js:349-365 | A committed event appends one row to its solicitud's history and leaves every other history alone. |
| EventLog.CreateStartsHistory | backend/src/controllers/solicitudController.js:72-86 | A new solicitud's history is the reception row alone. |
| SolicitudStore.ReceiptDays | backend/src/controllers/solicitudController.js:225 | The days of a remediation receipt looked up by name: 8 for IyV, 20 for the areas. |
| SolicitudStore.DocumentCheck | backend/src/controllers/solicitudController.js:209-231 | The block before the switch: for IyV's document check it collects the approval as sent, the 8-day deadline for remediation and the closure columns for an unsuccessful result. It changes nothing for other events. |
| SolicitudStore.ResultMapCase | backend/src/controllers/solicitudController.js:234-251 | The shared branch of the four result-checked events equals `Resolve`. |
| SolicitudStore.ResultMapAccepts | backend/src/controllers/solicitudController.js:243-250 | An accepted result gives the map's status. A closing act adds the closure columns. A result mentioning 'Subsanación' on an entry with `vencimientoDias` restarts the deadline. |
| SolicitudStore.ReceiptAccepts | backend/src/controllers/solicitudController.js:243-246 | A remediation receipt accepts a key of its map. Every key mentions 'Subsanación', so the deadline restarts with the entry's days. No column is collected. |
| SolicitudStore.ActAccepts | backend/src/controllers/solicitudController.js:243-250 | `acto_administrativo` accepts a key of its map. It collects the closure columns exactly for the two closed results and sets no deadline. |
| SolicitudStore.DocumentCheckAccepts | backend/src/controllers/solicitudController.js:209-246 | The document check accepts a key of its map. It collects the approval as sent, adds the closure columns for "Cerrada No Exitosa", and sets now+8 exactly for IyV remediation. |
| SolicitudStore.FilingCase | backend/src/controllers/solicitudController.js:253-269 | The filing branch equals `Resolve`. |
| SolicitudStore.AreaReviewCase | backend/src/controllers/solicitudController.js:271-310 | The area-review branch, with its role switch and substring tests, equals `Resolve`. |
| SolicitudStore.VisitCase | backend/src/controllers/solicitudController.js:313-316 | The visit branch equals `Resolve`. |
| SolicitudStore.ClosureCase | backend/src/controllers/solicitudController.js:318-322 | The closure branch equals `Resolve`. |
| SolicitudStore.DefaultCase | backend/src/controllers/solicitudController.js:324-330 | The default branch equals `Resolve`. |
| SolicitudStore.ResolveEvent | backend/src/controllers/solicitudController.js:202-331 | The step-by-step decision, with the overwritten status assignments, equals `Resolve`. |
| SolicitudStore.ApplyUpdate | backend/src/controllers/solicitudController.js:333-346 | The loop over the collected fields, skipping undefined ones, builds the row `Overlay` describes. |
| SolicitudStore.CheckGuards | backend/src/controllers/solicitudController.js:168-200 | The guards as run equal `Guard`. |
| SolicitudStore.Decide | backend/src/controllers/solicitudController.js:160-366 | The whole call as run equals `Handle`. A commit keeps the solicitud's identity and its event row names the solicitud. |
| SolicitudStore.InsertKeepsConsistent | backend/src/controllers/solicitudController.js:57-86 | Inserting a solicitud under the next id with a fresh radicado, together with its first event row, keeps the store invariant. |
| SolicitudStore.CommitKeepsConsistent | backend/src/controllers/solicitudController.js:333-365 | Rewriting a stored solicitud under its own id and radicado, and appending one of its event rows, keeps the store invariant. |
| SolicitudStore.DeleteKeepsConsistent | backend/src/controllers/solicitudController.js:383-384 | Deleting a solicitud with all its event rows keeps the store invariant. |
| SolicitudStore.Store.CreateSolicitud | backend/src/controllers/solicitudController.js:32-102 | A role other than IyV is forbidden. Otherwise, on failure both tables and the counter are unchanged. On success the row is stored under the next id, the reception row is appended and the counter advances. The store invariant is kept. |
| SolicitudStore.Store.HandleProcessEvent | backend/src/controllers/solicitudController.js:160-375 | On failure both tables are unchanged. On success the committed row replaces the solicitud, exactly one event row is appended, and the new status is returned. The store invariant is kept. |
| SolicitudStore.Store.WriteCommit | backend/src/controllers/solicitudController.js:333-365 | The `UPDATE` and the `INSERT` of a commit: the solicitud's row is replaced, one event row is appended, the counter is kept and the store invariant holds. |
| SolicitudStore.Store.DeleteSolicitud | backend/src/controllers/solicitudController.js:377-400 | A role other than Administrador is forbidden. Otherwise a stored solicitud is removed with all its event rows. A missing one is not found and nothing changes. The store invariant is kept. |

## Left out

- HTTP status codes and JSON responses: failures are the `Error` datatype.
- The routes' `authorize` lists are part of the store methods: create admits IyV alone (`CreateRoles`) and delete admits Administrador alone (`DeleteRoles`). The process-event route admits all five roles, which is every `Role`, so it adds no check there. The read routes are not part of this model.
- JWT verification and password hashing: `(actorId, role)` is trusted input.
- The connection pool, `FOR UPDATE` locking and concurrent calls: each handler is one atomic step on the in-memory `Store`.
- dayjs arithmetic and formatting: dates are day numbers. "Add n days" is `now + n`. The six-month filing deadline is the `limit` parameter, so `calculateDeadline` (which ignores its second argument) is not part of this model.
- `getAllSolicitudes` and `getSolicitudById`: read-only joins and ordering. `History` stands for the event list one solicitud shows.
- Body values that are JSON `null` or not strings, and result codes that name inherited object properties (such as "constructor"): every body field is an absent or present string. `areas_involucradas` is an absent or present list.
- `fecha_visita`, `hora_visita` and the catalog's `description` and `formFields`: the controller reads none of them.
- `JSON.stringify` of the attachments: the attachment value is opaque. A truthy value is stored as sent and a falsy one ("") as null. The model does not tell a JSON array from a string, so it has no empty-array case (an empty array is truthy in JavaScript).
- Auto-increment values consumed by a failed insert: a failed create leaves `nextId` unchanged.
- `checkAllApprovalsComplete`: it is commented out, and no "all areas approved" gate is modelled.
- The catalog file exports with `export const` while the controller loads it with `require`: the model assumes the catalog loads.
- The `Internal` (500) failures of the database other than the undefined-bind refusal and the duplicate radicado: these are not modelled.
- `UndefinedBind`: the refusal of an `undefined` bind value, with rollback, is the behaviour of the mysql2 driver. The controller itself does not check for it.
- `DuplicateRadicado`: it assumes a unique index on `radicado`, which the `ER_DUP_ENTRY` handler expects. The table definition is not part of this model.
- A `contador_visitas` that is NULL (`|| 0`): the counter is a `nat` starting at 0, which every create writes.
