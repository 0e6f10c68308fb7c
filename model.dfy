/** The records the meeting service works on: the scheduled meeting kept in the
    durable store, its live projection in the active-meeting store, a chat
    message and an audit log entry. */
module Model {
  import opened Collections

  /** A meeting as scheduled in the durable store. Times are epoch
      milliseconds supplied by the caller; `participants` is the raw
      comma-separated list of invited e-mail addresses. */
  datatype Meeting = Meeting(
    meetingId: string,
    title: string,
    description: string,
    startTime: int,
    endTime: int,
    latitude: real,
    longitude: real,
    participants: string)

  /** A meeting that is currently live. `participants` is the invited set,
      `joined` the set of invited users who are present. */
  datatype ActiveMeeting = ActiveMeeting(
    meetingId: string,
    title: string,
    description: string,
    startTime: int,
    endTime: int,
    latitude: real,
    longitude: real,
    participants: set<string>,
    joined: set<string>)

  /** One chat line: who sent it, its text and the time it was posted. */
  datatype ChatMessage = ChatMessage(email: string, message: string, timestamp: int)

  /** The three audit actions, stored as 1, 2 and 3. */
  datatype Action = Join | Leave | TimeOut

  /** The stored code of an action; distinct actions get distinct codes. */
  function ActionCode(a: Action): (code: int)
    ensures 1 <= code <= 3
    ensures code == 1 <==> a.Join?
    ensures code == 2 <==> a.Leave?
    ensures code == 3 <==> a.TimeOut?
  {
    match a
    case Join => 1
    case Leave => 2
    case TimeOut => 3
  }

  /** Reads a stored action code back; a code outside 1..3 names no action. */
  function ActionOfCode(code: int): (a: Option<Action>)
    ensures a.Some? <==> 1 <= code <= 3
  {
    if code == 1 then Some(Join)
    else if code == 2 then Some(Leave)
    else if code == 3 then Some(TimeOut)
    else None
  }

  /** The stored code of every action reads back as that action, and every
      valid code is the stored code of the action it reads back as. */
  lemma ActionCodeRoundTrip(a: Action, code: int)
    ensures ActionOfCode(ActionCode(a)) == Some(a)
    ensures ActionOfCode(code).Some? ==> ActionCode(ActionOfCode(code).value) == code
  {
  }

  /** An audit log entry as a row of the log table; the action column holds
      `ActionCode(action)`. The store's generated row id is not modelled. */
  datatype LogEntry = LogEntry(email: string, meetingId: string, timestamp: int, action: Action)

  /** The membership invariant of one active meeting: only invited users
      can be joined. */
  predicate MembershipOk(m: ActiveMeeting) {
    m.joined <= m.participants
  }
}
