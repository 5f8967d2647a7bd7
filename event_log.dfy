/**
  The `EventosProceso` table read as a log: the history of one solicitud (its
  rows in the order they were appended) and the log left by
  `DELETE FROM EventosProceso WHERE solicitud_id = ?`.
*/
module EventLog {
  import opened Common
  import opened ProcessEvents
  import opened SolicitudRules

  /**
    The rows of solicitud `id`, in the order they were appended: every row of
    the solicitud and no other row.
  */
  function History(log: seq<AuditEntry>, id: int): (h: seq<AuditEntry>)
    ensures |h| <= |log|
    ensures forall e | e in h :: e in log && e.solicitudId == id
    ensures forall e | e in log && e.solicitudId == id :: e in h
    decreases |log|
  {
    if log == [] then []
    else
      var init, last := log[..|log| - 1], log[|log| - 1];
      assert log == init + [last];
      History(init, id) + (if last.solicitudId == id then [last] else [])
  }

  /** Each row of the solicitud occurs in its history as often as in the log. */
  lemma {:induction false} HistoryCount(log: seq<AuditEntry>, id: int, e: AuditEntry)
    requires e.solicitudId == id
    ensures multiset(History(log, id))[e] == multiset(log)[e]
    decreases |log|
  {
    if log != [] {
      var init, last := log[..|log| - 1], log[|log| - 1];
      assert log == init + [last];
      HistoryCount(init, id, e);
    }
  }

  lemma AppendAssociative(x: seq<AuditEntry>, y: seq<AuditEntry>, z: seq<AuditEntry>)
    ensures (x + y) + z == x + (y + z)
  {
  }

  /** The history of a log split in two is the history of the first part followed by that of the second. */
  lemma {:induction false} HistoryConcat(a: seq<AuditEntry>, b: seq<AuditEntry>, id: int)
    ensures History(a + b, id) == History(a, id) + History(b, id)
    decreases |b|
  {
    if b == [] {
      assert a + b == a;
    } else {
      var init, last := b[..|b| - 1], b[|b| - 1];
      var tail := if last.solicitudId == id then [last] else [];
      assert b == init + [last];
      assert a + b == (a + init) + [last];
      HistoryAppend(a + init, last, id);
      HistoryAppend(init, last, id);
      HistoryConcat(a, init, id);
      assert History(b, id) == History(init, id) + tail;
      calc {
        History(a + b, id);
        History(a + init, id) + tail;
        (History(a, id) + History(init, id)) + tail;
        { AppendAssociative(History(a, id), History(init, id), tail); }
        History(a, id) + (History(init, id) + tail);
        History(a, id) + History(b, id);
      }
    }
  }

  /** The log without the rows of solicitud `id`; the other rows keep their order. */
  function WithoutSolicitud(log: seq<AuditEntry>, id: int): (r: seq<AuditEntry>)
    ensures forall e | e in r :: e in log && e.solicitudId != id
    ensures forall e | e in log && e.solicitudId != id :: e in r
    decreases |log|
  {
    if log == [] then []
    else
      var last := log[|log| - 1];
      assert forall e | e in log :: e in log[..|log| - 1] || e == last;
      WithoutSolicitud(log[..|log| - 1], id) + (if last.solicitudId == id then [] else [last])
  }

  /** Appending a row extends the history of its own solicitud and no other. */
  lemma HistoryAppend(log: seq<AuditEntry>, e: AuditEntry, id: int)
    ensures History(log + [e], id) == History(log, id) + (if e.solicitudId == id then [e] else [])
  {
    assert (log + [e])[..|log|] == log;
  }

  /** A log without rows of the solicitud gives it an empty history. */
  lemma {:induction false} HistoryOfAbsent(log: seq<AuditEntry>, id: int)
    requires forall e | e in log :: e.solicitudId != id
    ensures History(log, id) == []
    decreases |log|
  {
    if log != [] {
      var init := log[..|log| - 1];
      assert forall e | e in init :: e in log;
      HistoryOfAbsent(init, id);
    }
  }

  /** After the delete no row of the solicitud is left. */
  lemma DeleteClearsHistory(log: seq<AuditEntry>, id: int)
    ensures History(WithoutSolicitud(log, id), id) == []
  {
    HistoryOfAbsent(WithoutSolicitud(log, id), id);
  }

  /** The delete leaves the history of every other solicitud as it was. */
  lemma {:induction false} DeleteKeepsOtherHistories(log: seq<AuditEntry>, id: int, other: int)
    requires other != id
    ensures History(WithoutSolicitud(log, id), other) == History(log, other)
    decreases |log|
  {
    if log != [] {
      var init, last := log[..|log| - 1], log[|log| - 1];
      var kept := WithoutSolicitud(init, id);
      DeleteKeepsOtherHistories(init, id, other);
      assert History(log, other) == History(init, other) + (if last.solicitudId == other then [last] else []);
      if last.solicitudId != id {
        assert WithoutSolicitud(log, id) == kept + [last];
        HistoryAppend(kept, last, other);
      } else {
        assert WithoutSolicitud(log, id) == kept + [];
        assert kept + [] == kept;
      }
    }
  }

  /** The delete removes exactly the solicitud's history: as many rows as its history holds. */
  lemma {:induction false} DeleteCount(log: seq<AuditEntry>, id: int)
    ensures |WithoutSolicitud(log, id)| + |History(log, id)| == |log|
    decreases |log|
  {
    if log != [] {
      DeleteCount(log[..|log| - 1], id);
    }
  }

  /**
    A committed process event appends one row, to the history of the
    solicitud it was applied to, and leaves every other history alone.
  */
  lemma HandleAppendsToHistory(records: map<int, Record>, id: int, actorId: int, role: Role, sub: Submission,
                               now: int, log: seq<AuditEntry>, other: int)
    requires Handle(records, id, actorId, role, sub, now).Ok?
    ensures var c := Handle(records, id, actorId, role, sub, now).value;
            && c.entry.solicitudId == id
            && History(log + [c.entry], id) == History(log, id) + [c.entry]
            && (other != id ==> History(log + [c.entry], other) == History(log, other))
  {
    var c := Handle(records, id, actorId, role, sub, now).value;
    HistoryAppend(log, c.entry, id);
    HistoryAppend(log, c.entry, other);
  }

  /** A created solicitud's history is the reception row alone, and the others are unchanged. */
  lemma CreateStartsHistory(records: map<int, Record>, id: int, req: CreateRequest, actorId: int, now: int,
                            limit: int, log: seq<AuditEntry>, other: int)
    requires Create(records, id, req, actorId, now, limit).Ok?
    requires forall e | e in log :: e.solicitudId != id
    ensures var c := Create(records, id, req, actorId, now, limit).value;
            && History(log + [c.entry], id) == [c.entry]
            && c.entry.nombreProceso == RecepcionSolicitud.eventLabel
            && (other != id ==> History(log + [c.entry], other) == History(log, other))
  {
    var c := Create(records, id, req, actorId, now, limit).value;
    HistoryOfAbsent(log, id);
    HistoryAppend(log, c.entry, id);
    HistoryAppend(log, c.entry, other);
  }
}
