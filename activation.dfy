/** The specification side of the reconciler: which scheduled meetings are
    due, how a scheduled meeting becomes an active one, and what the active
    store looks like after one reconciliation tick. */
module Activation {
  import opened Model
  import opened Collections
  import opened Participants

  /** The durable store's due query: the window holds `now`, both bounds
      included. */
  predicate IsDue(m: Meeting, now: int) {
    m.startTime <= now && now <= m.endTime
  }

  /** The due query over the schedule, in store order. */
  function FindActiveMeetings(schedule: seq<Meeting>, now: int): (due: seq<Meeting>)
    ensures forall m :: m in due <==> m in schedule && IsDue(m, now)
  {
    if schedule == [] then []
    else
      (if IsDue(schedule[0], now) then [schedule[0]] else [])
      + FindActiveMeetings(schedule[1..], now)
  }

  function Ids(ms: seq<Meeting>): set<string> {
    set m | m in ms :: m.meetingId
  }

  /** The ids that should be active at `now`. */
  function DueIds(schedule: seq<Meeting>, now: int): set<string> {
    set m | m in schedule && IsDue(m, now) :: m.meetingId
  }

  /** The meeting id is the schedule's primary key. */
  predicate UniqueIds(ms: seq<Meeting>) {
    forall m1, m2 :: m1 in ms && m2 in ms && m1.meetingId == m2.meetingId ==> m1 == m2
  }

  /** The invariant of the active store: every entry is stored under its own
      id and only invited users are joined. */
  predicate StoreOk(active: map<string, ActiveMeeting>) {
    forall id :: id in active ==> active[id].meetingId == id && MembershipOk(active[id])
  }

  /** A scheduled meeting made live: fields copied, the invite list parsed,
      nobody joined yet. */
  function ConvertToActiveMeeting(m: Meeting): (a: ActiveMeeting)
    ensures a.meetingId == m.meetingId && a.title == m.title && a.description == m.description
    ensures a.startTime == m.startTime && a.endTime == m.endTime
    ensures a.latitude == m.latitude && a.longitude == m.longitude
    ensures a.participants == ParseParticipants(m.participants)
    ensures a.joined == {} && MembershipOk(a)
  {
    ActiveMeeting(m.meetingId, m.title, m.description, m.startTime, m.endTime,
                  m.latitude, m.longitude, ParseParticipants(m.participants), {})
  }

  /** A meeting whose invite list is written as comma-separated addresses
      becomes active with exactly those addresses invited and nobody joined,
      and with its id, title, description, times and position unchanged. */
  lemma ActivatedFromList(m: Meeting, emails: seq<string>)
    requires |emails| >= 1
    requires forall e :: e in emails ==> e != [] && IsTrimmed(e) && ',' !in e
    requires m.participants == JoinPieces(emails)
    ensures var a := ConvertToActiveMeeting(m);
      && a.participants == Elements(emails) && a.joined == {}
      && a.meetingId == m.meetingId && a.title == m.title && a.description == m.description
      && a.startTime == m.startTime && a.endTime == m.endTime
      && a.latitude == m.latitude && a.longitude == m.longitude
  {
    InviteListRoundTrip(emails);
  }

  /** One step of the reconciler's first loop: an id that is not yet active
      is activated; an active id is left exactly as it is. */
  function ActivateOne(active: map<string, ActiveMeeting>, m: Meeting): map<string, ActiveMeeting> {
    if m.meetingId in active then active
    else active[m.meetingId := ConvertToActiveMeeting(m)]
  }

  /** The reconciler's first loop over the due meetings, in order. */
  function Activate(active: map<string, ActiveMeeting>, due: seq<Meeting>): map<string, ActiveMeeting>
    decreases |due|
  {
    if due == [] then active
    else Activate(ActivateOne(active, due[0]), due[1..])
  }

  /** After the first loop every due id is active, and no other id appears. */
  lemma {:induction false} ActivateKeys(active: map<string, ActiveMeeting>, due: seq<Meeting>)
    ensures Activate(active, due).Keys == active.Keys + Ids(due)
    decreases |due|
  {
    if due != [] {
      ActivateKeys(ActivateOne(active, due[0]), due[1..]);
      assert Ids(due) == {due[0].meetingId} + Ids(due[1..]) by {
        assert due == [due[0]] + due[1..];
      }
    }
  }

  /** Activation never touches a meeting that is already active, so its
      joined set survives the tick. */
  lemma {:induction false} ActivateKeepsActive(active: map<string, ActiveMeeting>, due: seq<Meeting>)
    ensures forall id :: id in active ==> id in Activate(active, due) && Activate(active, due)[id] == active[id]
    decreases |due|
  {
    if due != [] {
      ActivateKeepsActive(ActivateOne(active, due[0]), due[1..]);
    }
  }

  /** A due meeting that was not active, and is the only due meeting with its
      id, is activated from that meeting. */
  lemma {:induction false} ActivateNew(active: map<string, ActiveMeeting>, due: seq<Meeting>, m: Meeting)
    requires m in due && m.meetingId !in active
    requires forall m' :: m' in due && m'.meetingId == m.meetingId ==> m' == m
    ensures m.meetingId in Activate(active, due)
    ensures Activate(active, due)[m.meetingId] == ConvertToActiveMeeting(m)
    decreases |due|
  {
    if due[0] == m {
      ActivateKeepsActive(ActivateOne(active, m), due[1..]);
    } else {
      assert m in due[1..];
      assert due[0] in due;
      ActivateNew(ActivateOne(active, due[0]), due[1..], m);
    }
  }

  lemma {:induction false} ActivateKeepsStoreOk(active: map<string, ActiveMeeting>, due: seq<Meeting>)
    requires StoreOk(active)
    ensures StoreOk(Activate(active, due))
    decreases |due|
  {
    if due != [] {
      ActivateKeepsStoreOk(ActivateOne(active, due[0]), due[1..]);
    }
  }

  /** The active store after a whole tick: the first loop's result with every
      id that is no longer due ended. */
  function Reconciled(active: map<string, ActiveMeeting>, schedule: seq<Meeting>, now: int): map<string, ActiveMeeting> {
    var activated := Activate(active, FindActiveMeetings(schedule, now));
    var due := DueIds(schedule, now);
    map id | id in activated && id in due :: activated[id]
  }

  lemma DueIdsOfQuery(schedule: seq<Meeting>, now: int)
    ensures Ids(FindActiveMeetings(schedule, now)) == DueIds(schedule, now)
  {
  }

  /** After a tick the active ids are exactly the due ids; a meeting that
      was active and is still due keeps its entry, joined set included. */
  lemma ReconciledState(active: map<string, ActiveMeeting>, schedule: seq<Meeting>, now: int)
    ensures Reconciled(active, schedule, now).Keys == DueIds(schedule, now)
    ensures forall id :: id in active && id in DueIds(schedule, now) ==>
      Reconciled(active, schedule, now)[id] == active[id]
  {
    var due := FindActiveMeetings(schedule, now);
    ActivateKeys(active, due);
    ActivateKeepsActive(active, due);
    DueIdsOfQuery(schedule, now);
  }

  /** The tick's result is the first loop's result with the ended ids
      removed: those that were active before and are not due. */
  lemma ReconciledAsRemoval(active: map<string, ActiveMeeting>, schedule: seq<Meeting>, now: int)
    ensures Reconciled(active, schedule, now)
      == Activate(active, FindActiveMeetings(schedule, now)) - (active.Keys - DueIds(schedule, now))
  {
    var due := FindActiveMeetings(schedule, now);
    ActivateKeys(active, due);
    DueIdsOfQuery(schedule, now);
  }

  /** A second tick at the same instant over the same schedule changes
      nothing. */
  lemma ReconciledIdempotent(active: map<string, ActiveMeeting>, schedule: seq<Meeting>, now: int)
    ensures Reconciled(Reconciled(active, schedule, now), schedule, now) == Reconciled(active, schedule, now)
  {
    var once := Reconciled(active, schedule, now);
    ReconciledState(active, schedule, now);
    ReconciledState(once, schedule, now);
  }

  lemma ReconciledKeepsStoreOk(active: map<string, ActiveMeeting>, schedule: seq<Meeting>, now: int)
    requires StoreOk(active)
    ensures StoreOk(Reconciled(active, schedule, now))
  {
    ActivateKeepsStoreOk(active, FindActiveMeetings(schedule, now));
  }

  /** A scheduled meeting is live after a tick at any instant of its window
      and gone after a tick past its end; one that was not live before the
      tick starts with its parsed invite list and nobody joined. */
  lemma TickConvergence(active: map<string, ActiveMeeting>, schedule: seq<Meeting>, now: int, m: Meeting)
    requires m in schedule && UniqueIds(schedule)
    ensures m.startTime <= now <= m.endTime ==> m.meetingId in Reconciled(active, schedule, now)
    ensures now > m.endTime ==> m.meetingId !in Reconciled(active, schedule, now)
    ensures m.startTime <= now <= m.endTime && m.meetingId !in active ==>
      Reconciled(active, schedule, now)[m.meetingId] == ConvertToActiveMeeting(m)
  {
    ReconciledState(active, schedule, now);
    var due := FindActiveMeetings(schedule, now);
    if IsDue(m, now) && m.meetingId !in active {
      ActivateNew(active, due, m);
    }
  }
}
