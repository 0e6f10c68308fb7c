# Active-meeting lifecycle engine of the meeting service

This project is a Dafny model of the core of `MeetingService` in a Spring/Redis
meeting application. Meetings are scheduled in a durable store. While a meeting's
time window holds the current instant, it lives in a fast "active meetings"
store. The model covers:

- **Reconciler** (`updateActiveMeetings`): the periodic tick. It activates every
  due meeting that is not yet active and ends every active meeting that is no
  longer due.
- **Activation** (`convertToActiveMeeting`): copies the meeting's fields and parses
  its comma-separated invite list into a set of trimmed addresses. Java's
  `String.split(",")` and `String.trim` are modelled exactly, including the
  dropping of trailing empty pieces.
- **Membership**: `joinMeeting`, `leaveMeeting` and `endMeeting`, with the audit
  log entries they append (JOIN = 1, LEAVE = 2, TIME_OUT = 3).
- **Chat**: one list per meeting, appended at its right end. A user's messages
  are read by filtering that list by sender.
- **Queries**: joined participants, active meetings, and the proximity filter
  (`findNearbyMeetings`).

The service is the class `Service.MeetingService`. It has three fields:

- `active`: the active-meeting store, a map from meeting id.
- `chats`: the chat lists, a map from meeting id.
- `log`: the audit log, a sequence.

Its methods change these fields in place. Each method is specified against pure
functions in the modules `Activation`, `Participants`, `Chat` and `Proximity`.
Lemmas in those modules prove the properties of the specification functions.

The store invariant is `MeetingService.Valid`. It says:

- every active meeting is stored under its own id;
- its joined set is a subset of its invited set;
- chat lists exist only for active meetings.

Every state-changing method requires and preserves this invariant.

The active-meeting store and the joined sets are hash structures, so the order
in which they are iterated is unspecified. The model treats that order as
arbitrary, using `Collections.Enumerate`. Three results are therefore specified
as sets without duplicates rather than as lists in a fixed order:
`getAllActiveMeetings`, `getJoinedParticipants` and `findNearbyMeetings`.
`postMessage` and `getUserMessages` use "the first meeting the user has joined".
The model specifies this as "some meeting the user has joined".

The module `Walkthrough` takes one meeting through its whole life: tick, list,
join, refused join, post, leave, end, and a refused second end. Every outcome
follows from the contracts alone.

Posting follows the service method, not the web endpoint. The service's
`postMessage(email, text)` (MeetingService.java:214-231) takes no meeting id.
It posts to the first meeting in which the user is joined, and returns false
only when the user is joined nowhere. The endpoint in MeetingController.java:121-141
is addressed to one meeting instead: it checks that the user is in that
meeting's joined set, then calls `postMessageToMeeting`, which the service
does not define. The model covers the service method.

## Model

| member | source | states |
|---|---|---|
| Model.ActionCode | src/main/java/gr/dmst/edu/redis/model/Log.java:21-25 | JOIN, LEAVE and TIME_OUT are stored as 1, 2 and 3. Each code belongs to exactly one action. |
| Model.ActionOfCode | src/main/java/gr/dmst/edu/redis/model/Log.java:21-25 | A stored code names an action if and only if it is 1, 2 or 3. |
| Model.ActionCodeRoundTrip | src/main/java/gr/dmst/edu/redis/model/Log.java:21-25 | The stored code of an action reads back as that action, and each valid code is the code of the action it reads back as. |
| Participants.TrimStart | src/main/java/gr/dmst/edu/redis/service/MeetingService.java:81 | Leading trimming removes the longest prefix of characters `<= ' '`. The result is a suffix of the input. |
| Participants.TrimEnd | src/main/java/gr/dmst/edu/redis/service/MeetingService.java:81 | Trailing trimming removes the longest suffix of characters `<= ' '`. The result is a prefix of the input. |
| Participants.Trim | src/main/java/gr/dmst/edu/redis/service/MeetingService.java:81 | The trimmed string has no blank at either end, and it contains only characters of the input. |
| Participants.TrimOfTrimmed | src/main/java/gr/dmst/edu/redis/service/MeetingService.java:81 | Trimming a string that is already trimmed changes nothing. |
| Participants.TrimLeadingSpace | src/main/java/gr/dmst/edu/redis/service/MeetingService.java:81 | A single space in front of a trimmed string is removed, and nothing else is. |
| Participants.SplitAll | src/main/java/gr/dmst/edu/redis/service/MeetingService.java:80 | Splitting at every comma yields at least one piece, and no piece contains a comma. |
| Participants.JoinSplitRoundTrip | src/main/java/gr/dmst/edu/redis/service/MeetingService.java:80 | Joining the split pieces with commas gives back the original string. |
| Participants.SplitAllCommaFreePrefix | src/main/java/gr/dmst/edu/redis/service/MeetingService.java:80 | A comma-free prefix becomes part of the first piece, and the other pieces are unaffected. |
| Participants.SplitJoinRoundTrip | src/main/java/gr/dmst/edu/redis/service/MeetingService.java:80 | Splitting a comma-joined list of comma-free pieces gives back exactly those pieces. |
| Participants.DropTrailingEmpty | src/main/java/gr/dmst/edu/redis/service/MeetingService.java:80 | Java's split removes trailing empty pieces. The result is a prefix of the input whose last piece is non-empty, and every dropped piece is empty. |
| Participants.JavaSplit | src/main/java/gr/dmst/edu/redis/service/MeetingService.java:80 | `split(",")`: no piece contains a comma. A string without a comma gives itself as the only piece. The last piece is non-empty unless the input is empty. |
| Participants.JoinedHasComma | src/main/java/gr/dmst/edu/redis/service/MeetingService.java:80 | Two or more pieces joined by commas form a string that holds a comma. |
| Participants.JavaSplitOfJoined | src/main/java/gr/dmst/edu/redis/service/MeetingService.java:80 | Splitting two or more comma-free pieces joined by commas gives those pieces with the trailing empty ones dropped. With JoinSplitRoundTrip this fixes the result for every input that holds a comma. |
| Participants.ParseParticipants | src/main/java/gr/dmst/edu/redis/service/MeetingService.java:80-83 | Every invited address is trimmed and comma-free. |
| Participants.ParseJoinedList | src/main/java/gr/dmst/edu/redis/service/MeetingService.java:80-83 | A single piece gives its trimmed self, even when empty. Two or more pieces give the trimmed pieces left after the trailing empty ones are dropped. When the last piece is non-empty, the result is every piece trimmed. |
| Participants.ParseSpacedList | src/main/java/gr/dmst/edu/redis/service/MeetingService.java:80-83 | `"a, b"` invites exactly `a` and `b`: the space is trimmed away. |
| Participants.ParseTrailingComma | src/main/java/gr/dmst/edu/redis/service/MeetingService.java:80-83 | `"a,b,"` invites exactly `a` and `b`: the trailing comma adds no empty address. |
| Participants.ParseEmptyList | src/main/java/gr/dmst/edu/redis/service/MeetingService.java:80-83 | An empty list invites the empty address, not nobody. |
| Participants.InviteListRoundTrip | src/main/java/gr/dmst/edu/redis/service/MeetingService.java:80-83 | Parsing a comma-joined list of non-empty, trimmed, comma-free addresses gives exactly those addresses. |
| Activation.FindActiveMeetings | src/main/java/gr/dmst/edu/redis/repository/MeetingRepository.java:12-13 | The due query returns exactly the scheduled meetings with `startTime <= now <= endTime`. Both bounds are inclusive. |
| Activation.DueIdsOfQuery | src/main/java/gr/dmst/edu/redis/service/MeetingService.java:52-54 | The ids collected from the due query are exactly the ids of the due meetings. |
| Activation.ConvertToActiveMeeting | src/main/java/gr/dmst/edu/redis/service/MeetingService.java:69-86 | The activated meeting copies id, title, description, times and coordinates. Its invited set is the parsed invite list, and it starts with nobody joined, so the membership invariant holds. |
| Activation.ActivatedFromList | src/main/java/gr/dmst/edu/redis/service/MeetingService.java:69-86 | The invited set is exactly the listed addresses, and the joined set is empty. Id, title, description, times and coordinates are copied unchanged. |
| Activation.ActivateKeys | src/main/java/gr/dmst/edu/redis/service/MeetingService.java:44-49 | After the first loop, the active ids are the old ids plus the due ids. |
| Activation.ActivateKeepsActive | src/main/java/gr/dmst/edu/redis/service/MeetingService.java:44-49 | A meeting that is already active is not saved again. Its entry, joined set included, is unchanged. |
| Activation.ActivateNew | src/main/java/gr/dmst/edu/redis/service/MeetingService.java:44-49 | A due meeting that was not active gets a fresh entry converted from it. |
| Activation.ActivateKeepsStoreOk | src/main/java/gr/dmst/edu/redis/service/MeetingService.java:44-49 | Activation preserves the store invariant. |
| Activation.ReconciledState | src/main/java/gr/dmst/edu/redis/service/MeetingService.java:37-66 | After a tick, the active ids equal the due ids. A meeting that was active and is still due keeps its entry. |
| Activation.ReconciledAsRemoval | src/main/java/gr/dmst/edu/redis/service/MeetingService.java:52-66 | The second loop removes exactly the ids that were active and are no longer due. |
| Activation.ReconciledIdempotent | src/main/java/gr/dmst/edu/redis/service/MeetingService.java:37-66 | A second tick at the same instant over the same schedule changes nothing. |
| Activation.ReconciledKeepsStoreOk | src/main/java/gr/dmst/edu/redis/service/MeetingService.java:37-66 | A tick preserves the store invariant. |
| Activation.TickConvergence | src/main/java/gr/dmst/edu/redis/service/MeetingService.java:37-86 | A scheduled meeting is active after any tick inside its window and absent after a tick past its end. If it was not active before, it starts from its converted form. |
| Proximity.SquaredTestMatchesDistance | src/main/java/gr/dmst/edu/redis/service/MeetingService.java:276-281 | Comparing the squared offsets with 100² is the same test as comparing the Euclidean distance with 100. |
| Proximity.ThresholdIsInclusive | src/main/java/gr/dmst/edu/redis/service/MeetingService.java:100 | A meeting exactly 100 away is nearby; one slightly farther is not. |
| Chat.FromSender | src/main/java/gr/dmst/edu/redis/service/MeetingService.java:270-272 | Every kept message has the given sender. Each message of that sender is kept exactly as often as it occurs in the chat, and nothing else is kept. |
| Chat.FromSenderAppend | src/main/java/gr/dmst/edu/redis/service/MeetingService.java:270-272 | Filtering an appended log is filtering each part, so order is preserved. |
| Chat.PostedMessageIsLast | src/main/java/gr/dmst/edu/redis/service/MeetingService.java:227-228 | After a post, the poster's messages are the earlier ones followed by the new message. |
| Collections.Enumerate | src/main/java/gr/dmst/edu/redis/service/MeetingService.java:195 | Iterating a hash set visits each element exactly once, in some order. |
| Service.TimeoutEntriesStep | src/main/java/gr/dmst/edu/redis/service/MeetingService.java:195-202 | One more joined user visited adds exactly one TIME_OUT entry. |
| Service.ExpiryEntriesGrow | src/main/java/gr/dmst/edu/redis/service/MeetingService.java:62-66 | Ending one more meeting adds its own TIME_OUT entries, and none of them was written before. |
| Service.MeetingService.ActivateMissing | src/main/java/gr/dmst/edu/redis/service/MeetingService.java:43-49 | The first loop of the tick leaves the store equal to `Activate` of the old store. Chats and log are unchanged. |
| Service.MeetingService.EndMeetingsNotIn | src/main/java/gr/dmst/edu/redis/service/MeetingService.java:56-66 | Every stored id outside the due set is ended, together with its chat. The log grows by exactly one TIME_OUT entry per joined user of those meetings. |
| Service.MeetingService.UpdateActiveMeetings | src/main/java/gr/dmst/edu/redis/service/MeetingService.java:37-67 | After a tick the store equals `Reconciled`, its ids are the due ids, and the chats of ended meetings are deleted. The log grows by exactly the TIME_OUT entries of the ended meetings. The invariant is kept. |
| Service.MeetingService.FindJoinedMeeting | src/main/java/gr/dmst/edu/redis/service/MeetingService.java:216-222 | The lookup finds a meeting if and only if the user is joined to some active meeting, and any meeting it finds has the user joined. |
| Service.MeetingService.FindNearbyMeetings | src/main/java/gr/dmst/edu/redis/service/MeetingService.java:89-107 | The result has no duplicates. It holds exactly the active meetings that invite the user and are within reach of (x, y). |
| Service.MeetingService.JoinMeeting | src/main/java/gr/dmst/edu/redis/service/MeetingService.java:110-136 | The call succeeds if and only if the meeting is active and the user is invited. On success the user is added to that meeting's joined set and one JOIN entry is appended. On failure nothing changes. Chats are untouched, and the invariant is kept. |
| Service.MeetingService.LeaveMeeting | src/main/java/gr/dmst/edu/redis/service/MeetingService.java:139-165 | The call succeeds if and only if the meeting is active and the user is joined. On success exactly that user is removed and one LEAVE entry is appended. On failure nothing changes. Other meetings are untouched. |
| Service.MeetingService.GetJoinedParticipants | src/main/java/gr/dmst/edu/redis/service/MeetingService.java:168-175 | The result is empty for an inactive meeting. Otherwise it holds the joined set exactly, without duplicates. |
| Service.MeetingService.GetAllActiveMeetings | src/main/java/gr/dmst/edu/redis/service/MeetingService.java:178-182 | The result lists every active id exactly once. |
| Service.MeetingService.EndMeeting | src/main/java/gr/dmst/edu/redis/service/MeetingService.java:185-211 | The call succeeds if and only if the meeting is active. The meeting and its chat are removed. The log grows by exactly one TIME_OUT entry per joined user, or by nothing on failure. |
| Service.MeetingService.GetMeetingChatMessages | src/main/java/gr/dmst/edu/redis/service/MeetingService.java:234-251 | Reading the chat gives the list in append order. A meeting that is not active has an empty chat. |
| Service.MeetingService.PostMessage | src/main/java/gr/dmst/edu/redis/service/MeetingService.java:214-231 | The call succeeds if and only if the user is joined to some active meeting. On success, the message is appended at the end of the chat of such a meeting, and no other chat changes. Meetings and log are untouched. |
| Service.MeetingService.GetUserMessages | src/main/java/gr/dmst/edu/redis/service/MeetingService.java:254-273 | The result is empty if the user is joined nowhere. Otherwise it is the user's messages in the chat of a meeting they have joined, in chat order. |
| Walkthrough.StartMeeting | src/main/java/gr/dmst/edu/redis/service/MeetingService.java:37-86 | A tick inside the window activates the meeting with invite list `a@x.com,b@x.com`. That meeting is the only one active, invites exactly those two addresses and has nobody joined. |
| Walkthrough.JoinAndPost | src/main/java/gr/dmst/edu/redis/service/MeetingService.java:110-231 | The active list is `[M1]`. The invited user joins, and an uninvited user is refused. The posted message is then the whole chat of M1. |
| Walkthrough.LeaveAndEnd | src/main/java/gr/dmst/edu/redis/service/MeetingService.java:139-211 | A leave succeeds once and then fails. Ending the meeting empties the store and the chats, and a second end fails. |

## Left out

- Spring wiring, the `@Scheduled` timer and the Redis/JPA repositories. The stores are the class's fields. The scheduled meetings and the current instant are parameters of the tick.
- Clocks. `LocalDateTime.now()` and `System.currentTimeMillis()` become a `now` parameter. In the code, each `endMeeting` called from the tick reads the clock again. The model stamps all TIME_OUT entries of one tick with the tick's `now`.
- The conversion of `LocalDateTime` to epoch milliseconds. Times are opaque integers, in the same unit as the schedule's times.
- Floating point. Coordinates are reals. The distance test is stated without the square root, and `SquaredTestMatchesDistance` relates it to the root. IEEE rounding is not modelled.
- Jackson serialisation, and the `instanceof ChatMessage` filter on chat reads. Chat lists hold `ChatMessage` values only, so the filter keeps everything.
- The order of hash iteration. `findFirst` over the store becomes "some joined meeting", and ordered list results become sets without duplicates. The model therefore does not say which meeting is chosen when a user is joined to several.
- Concurrency. The code takes no locks, and the model is sequential.
- Null fields and the exceptions they would raise. Every field of `Meeting` and `ActiveMeeting` is a reference in Java and may be null, while the model's strings, integers and reals cannot be. A null participant list makes activation throw at MeetingService.java:80; the exception aborts the whole tick, so the due meetings after it are not activated and the second loop (lines 62-66) ends no meeting. A meeting with a null start or end time is never returned by the due query (MeetingRepository.java:12), so it is never activated; the model has no such meeting. A null latitude or longitude is copied at lines 76-77, and `findNearbyMeetings` then throws when it unboxes the value at line 99, for every user invited to that meeting.
- The generated row id of a log entry. Log entries carry the address, meeting id, timestamp and action.
- The controller in `MeetingController.java`, including its `activateMeeting` endpoint. That endpoint saves unconditionally, so it overwrites the joined set. The controller also calls `postMessageToMeeting` and `getUserMessagesInMeeting`, which are not defined in the service and are not part of this model.
- Participants.Trim: states that the result is trimmed and drawn from the input's characters. The exact slice is given by `TrimStart` and `TrimEnd`, from which `Trim` is composed.
- Service.MeetingService.EndMeeting: specifies the TIME_OUT entries as a multiset, not as a sequence, because the joined set is iterated in hash order.
- Service.MeetingService.UpdateActiveMeetings: specifies the tick's TIME_OUT entries as a multiset, not as a sequence, because the stored ids are iterated in hash order.
