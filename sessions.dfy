/** The clarification session store (src/services/session.service.js over
    the `user_sessions` table): id normalisers and pending/resolved records.
    The table is a sequence of records, and `findOne` takes the first match. */
module Sessions {
  import opened Intents
  import opened Text

  /** `Number.isInteger(n) && n > 0 ? n : null`, where `n` is `Number(userId)`;
      `None` stands for the non-finite results (`NaN`, `Infinity`). */
  function NormalizeUserId(n: Option<real>): (r: Option<int>)
    ensures r.Some? <==> n.Some? && n.value > 0.0 && n.value.Floor as real == n.value
    ensures r.Some? ==> r.value > 0 && r.value as real == n.value
  {
    if n.Some? && n.value.Floor as real == n.value && n.value > 0.0 then Some(n.value.Floor) else None
  }

  /** `normalizeSessionId`: `None` is `null`/`undefined`; any other value is
      given as the string `String(sessionId)` produces. */
  function NormalizeSessionId(raw: Option<string>): (r: Option<string>)
    ensures raw.None? ==> r.None?
    ensures raw.Some? ==> (r.None? <==> forall i :: 0 <= i < |raw.value| ==> IsWhitespace(raw.value[i]))
    ensures r.Some? ==> r.value == Trim(raw.value)
    ensures r.Some? ==> r.value != [] && !IsWhitespace(r.value[0]) && !IsWhitespace(r.value[|r.value| - 1])
  {
    if raw.None? then None
    else
      TrimSpec(raw.value);
      var s := Trim(raw.value);
      if |s| > 0 then Some(s) else None
  }

  /** `status: ENUM("pending", "resolved")` */
  datatype Status = Pending | Resolved

  /** A `user_sessions` row. */
  datatype SessionRecord = SessionRecord(userId: int, sessionId: string, intent: Intent,
                                         originalQuery: string, status: Status)

  /** The `where` clause of `getActiveSession`. */
  predicate PendingFor(rec: SessionRecord, userId: int, sessionId: string) {
    rec.userId == userId && rec.sessionId == sessionId && rec.status == Pending
  }

  /** The first index at or after `from` whose record is pending for the ids. */
  function FindPending(records: seq<SessionRecord>, userId: int, sessionId: string, from: nat): (r: Option<nat>)
    requires from <= |records|
    ensures r.Some? ==> from <= r.value < |records| && PendingFor(records[r.value], userId, sessionId)
    ensures r.Some? ==> forall j :: from <= j < r.value ==> !PendingFor(records[j], userId, sessionId)
    ensures r.None? ==> forall j :: from <= j < |records| ==> !PendingFor(records[j], userId, sessionId)
    decreases |records| - from
  {
    if from == |records| then None
    else if PendingFor(records[from], userId, sessionId) then Some(from)
    else FindPending(records, userId, sessionId, from + 1)
  }

  class SessionStore {
    var records: seq<SessionRecord>

    constructor()
      ensures records == []
    {
      records := [];
    }

    /** `getActiveSession(userId, sessionId)`: the index of the first pending
        record for the normalised ids; no lookup when either id is invalid. */
    function GetActiveSession(userId: Option<real>, sessionId: Option<string>): (r: Option<nat>)
      reads this
      ensures NormalizeUserId(userId).None? || NormalizeSessionId(sessionId).None? ==> r.None?
      ensures r.Some? ==> r.value < |records| && records[r.value].status == Pending
      ensures r.Some? ==> PendingFor(records[r.value], NormalizeUserId(userId).value, NormalizeSessionId(sessionId).value)
      ensures r.Some? ==> forall j :: 0 <= j < r.value ==>
                !PendingFor(records[j], NormalizeUserId(userId).value, NormalizeSessionId(sessionId).value)
      ensures r.None? && NormalizeUserId(userId).Some? && NormalizeSessionId(sessionId).Some? ==>
                forall j :: 0 <= j < |records| ==>
                  !PendingFor(records[j], NormalizeUserId(userId).value, NormalizeSessionId(sessionId).value)
    {
      var uid := NormalizeUserId(userId);
      var sid := NormalizeSessionId(sessionId);
      if uid.None? || sid.None? then None
      else FindPending(records, uid.value, sid.value, 0)
    }

    /** `saveSession`: appends one pending record with the fields as given
        (no normalisation, no check for an existing pending record). */
    method SaveSession(userId: int, sessionId: string, intent: Intent, originalQuery: string)
      returns (session: nat)
      modifies this
      ensures records == old(records) + [SessionRecord(userId, sessionId, intent, originalQuery, Pending)]
      ensures session == |old(records)| && session < |records|
    {
      session := |records|;
      records := records + [SessionRecord(userId, sessionId, intent, originalQuery, Pending)];
    }

    /** `resolveSession(session, mergedIntent)`: without a session or an
        intent nothing changes; otherwise that record alone takes the merged
        intent and becomes resolved. */
    method ResolveSession(session: Option<nat>, mergedIntent: Option<Intent>) returns (r: Option<Intent>)
      requires session.Some? ==> session.value < |records|
      modifies this
      ensures session.None? || mergedIntent.None? ==> r.None? && records == old(records)
      ensures session.Some? && mergedIntent.Some? ==>
                r == mergedIntent &&
                records == old(records)[session.value := Resolve(old(records)[session.value], mergedIntent.value)]
    {
      if session.None? { return None; }
      if mergedIntent.None? { return None; }
      records := records[session.value := Resolve(records[session.value], mergedIntent.value)];
      r := mergedIntent;
    }
  }

  /** The record after `session.intentJson = mergedIntent; session.status = "resolved"`. */
  function Resolve(rec: SessionRecord, mergedIntent: Intent): (r: SessionRecord)
    ensures r.status == Resolved && r.intent == mergedIntent
    ensures r.userId == rec.userId && r.sessionId == rec.sessionId && r.originalQuery == rec.originalQuery
  {
    rec.(intent := mergedIntent, status := Resolved)
  }

  /** Appending a record never hides an earlier match: the lookup over the
      longer table finds the old match if there was one, else the new record
      if it matches. So a second pending record for the same ids is stored
      but not found while the first one is pending. */
  lemma {:induction false} FindPendingAppend(records: seq<SessionRecord>, rec: SessionRecord,
                                             userId: int, sessionId: string, from: nat)
    requires from <= |records|
    ensures FindPending(records + [rec], userId, sessionId, from) ==
              match FindPending(records, userId, sessionId, from)
              case Some(k) => Some(k)
              case None => if PendingFor(rec, userId, sessionId) then Some(|records|) else None
    decreases |records| - from
  {
    var longer := records + [rec];
    if from < |records| {
      assert longer[from] == records[from];
      if !PendingFor(records[from], userId, sessionId) {
        FindPendingAppend(records, rec, userId, sessionId, from + 1);
      }
    }
  }

  /** Resolving the record the lookup found makes the lookup move past it:
      it then finds a later pending record for the same ids, or none. */
  lemma {:induction false} ResolvedNotFound(records: seq<SessionRecord>, k: nat, mergedIntent: Intent,
                                            userId: int, sessionId: string)
    requires FindPending(records, userId, sessionId, 0) == Some(k)
    ensures var after := records[k := Resolve(records[k], mergedIntent)];
            var r := FindPending(after, userId, sessionId, 0);
            r.None? || r.value > k
    ensures var after := records[k := Resolve(records[k], mergedIntent)];
            FindPending(after, userId, sessionId, 0) == FindPending(after, userId, sessionId, k + 1)
  {
    var after := records[k := Resolve(records[k], mergedIntent)];
    SkipNonMatching(after, userId, sessionId, 0, k + 1);
  }

  /** The lookup skips a stretch of records none of which match. */
  lemma {:induction false} SkipNonMatching(records: seq<SessionRecord>, userId: int, sessionId: string,
                                           lo: nat, hi: nat)
    requires lo <= hi <= |records|
    requires forall j :: lo <= j < hi ==> !PendingFor(records[j], userId, sessionId)
    ensures FindPending(records, userId, sessionId, lo) == FindPending(records, userId, sessionId, hi)
    decreases hi - lo
  {
    if lo < hi {
      SkipNonMatching(records, userId, sessionId, lo + 1, hi);
    }
  }
}
