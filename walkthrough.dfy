/** A client of the service that walks one meeting through its whole life
    and checks, from the contracts alone, what each call returns. */
module Walkthrough {
  import opened Model
  import opened Collections
  import opened Participants
  import opened Activation
  import opened Service

  const Invited: set<string> := {"a@x.com", "b@x.com"}

  /** A meeting invites a@x.com and b@x.com; a tick inside its window makes
      it the only active meeting, with nobody joined. */
  method StartMeeting(now: int) returns (service: MeetingService)
    ensures fresh(service) && service.Valid()
    ensures service.active.Keys == {"M1"}
    ensures service.active["M1"].participants == Invited && service.active["M1"].joined == {}
    ensures service.chats == map[]
  {
    service := new MeetingService();
    var m1 := Meeting("M1", "Weekly sync", "", now - 60000, now + 60000, 0.0, 0.0, "a@x.com,b@x.com");
    ActivatedFromList(m1, ["a@x.com", "b@x.com"]);
    TickConvergence(map[], [m1], now, m1);
    service.UpdateActiveMeetings([m1], now);
  }

  /** The meeting is listed as active; an invited user joins and posts; an
      uninvited one cannot join. */
  method JoinAndPost(service: MeetingService, now: int)
    requires service.Valid()
    requires service.active.Keys == {"M1"}
    requires service.active["M1"].participants == Invited && service.active["M1"].joined == {}
    requires service.chats == map[]
    modifies service
    ensures service.Valid()
    ensures service.active.Keys == {"M1"} && service.active["M1"].joined == {"a@x.com"}
    ensures service.chats == map["M1" := [ChatMessage("a@x.com", "hi", now)]]
  {
    var ids := service.GetAllActiveMeetings();
    assert |ids| == 1 && ids[0] in Elements(ids);
    assert ids == ["M1"];
    var ok := service.JoinMeeting("a@x.com", "M1", now);
    assert ok;
    ok := service.JoinMeeting("c@x.com", "M1", now);
    assert !ok;
    ok := service.PostMessage("a@x.com", "hi", now);
    assert ok;
    assert service.GetMeetingChatMessages("M1") == [ChatMessage("a@x.com", "hi", now)];
  }

  /** The user leaves (a second leave fails); ending the meeting removes it
      and its chat, and ending it again fails. */
  method LeaveAndEnd(service: MeetingService, now: int)
    requires service.Valid()
    requires service.active.Keys == {"M1"} && service.active["M1"].joined == {"a@x.com"}
    modifies service
    ensures service.active == map[] && service.chats == map[]
  {
    var ok := service.LeaveMeeting("a@x.com", "M1", now);
    assert ok;
    ok := service.LeaveMeeting("a@x.com", "M1", now);
    assert !ok;
    ok := service.EndMeeting("M1", now);
    assert ok;
    assert service.GetMeetingChatMessages("M1") == [];
    var ids := service.GetAllActiveMeetings();
    assert ids == [];
    ok := service.EndMeeting("M1", now);
    assert !ok;
  }

  method OneMeetingLifecycle(now: int)
  {
    var service := StartMeeting(now);
    JoinAndPost(service, now);
    LeaveAndEnd(service, now);
  }
}
