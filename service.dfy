/** The meeting service: the active-meeting store, the per-meeting chat
    lists and the audit log, with the reconciliation tick and the
    membership, chat and query operations that work on them. The clock and
    the scheduled meetings are passed in as parameters. */
module Service {
  import opened Model
  import opened Collections
  import opened Activation
  import opened Chat
  import opened Proximity

  /** The TIME_OUT entries written when one meeting ends: one per joined user. */
  function TimeoutEntries(id: string, joined: set<string>, now: int): set<LogEntry> {
    set e | e in joined :: LogEntry(e, id, now, TimeOut)
  }

  /** The TIME_OUT entries written when the meetings in `ended` end. */
  function ExpiryEntries(active: map<string, ActiveMeeting>, ended: set<string>, now: int): set<LogEntry> {
    set id, e | id in ended && id in active && e in active[id].joined :: LogEntry(e, id, now, TimeOut)
  }

  /** Ending one more meeting adds its own TIME_OUT entries, none of which
      was already there. */
  lemma ExpiryEntriesGrow(active: map<string, ActiveMeeting>, ended: set<string>, id: string, now: int)
    requires id in active && id !in ended
    ensures ExpiryEntries(active, ended + {id}, now)
      == ExpiryEntries(active, ended, now) + TimeoutEntries(id, active[id].joined, now)
    ensures ExpiryEntries(active, ended, now) !! TimeoutEntries(id, active[id].joined, now)
  {
  }

  /** The nearby-meetings test for one meeting: the user is invited and the
      meeting lies within reach of the user's position. */
  predicate IsNearby(m: ActiveMeeting, email: string, x: real, y: real) {
    email in m.participants && WithinReach(x, y, m.latitude, m.longitude)
  }

  /** TIME_OUT entries for one more distinct user. */
  lemma TimeoutEntriesStep(id: string, emails: seq<string>, k: nat, now: int)
    requires NoDuplicates(emails) && k < |emails|
    ensures multiset(TimeoutEntries(id, Elements(emails[..k + 1]), now))
      == multiset(TimeoutEntries(id, Elements(emails[..k]), now)) + multiset{LogEntry(emails[k], id, now, TimeOut)}
  {
  }

  lemma ConcatAssociative<T>(a: seq<T>, b: seq<T>, c: seq<T>)
    ensures (a + b) + c == a + (b + c)
  {
  }

  lemma RemoveOneMore<K, V>(m: map<K, V>, removed: set<K>, k: K)
    ensures (m - removed) - {k} == m - (removed + {k})
  {
  }

  /** Visiting one more stored id: it joins the ended ids unless it is kept. */
  lemma VisitOne<T>(all: set<T>, unvisited: set<T>, keep: set<T>, x: T)
    requires x in unvisited && unvisited <= all
    ensures (all - (unvisited - {x})) - keep
      == ((all - unvisited) - keep) + (if x in keep then {} else {x})
  {
  }

  /** A sequence that starts with `prefix` is `prefix` followed by the rest. */
  lemma SplitAtPrefix<T>(s: seq<T>, prefix: seq<T>)
    requires |prefix| <= |s| && s[..|prefix|] == prefix
    ensures s == prefix + s[|prefix|..]
  {
  }

  class MeetingService {
    /** The active-meeting store, keyed by meeting id. */
    var active: map<string, ActiveMeeting>
    /** The chat lists, keyed by meeting id. */
    var chats: map<string, seq<ChatMessage>>
    /** The audit log, oldest entry first. */
    var log: seq<LogEntry>

    ghost predicate Valid()
      reads this
    {
      StoreOk(active) && chats.Keys <= active.Keys
    }

    constructor ()
      ensures Valid()
      ensures active == map[] && chats == map[] && log == []
    {
      active := map[];
      chats := map[];
      log := [];
    }

    /** True when the user is joined to some active meeting. */
    ghost predicate JoinedSomewhere(email: string)
      reads this
    {
      exists id :: id in active && email in active[id].joined
    }

    /** The first half of a tick: each due meeting whose id is not in the
        store is activated and saved; a meeting already in the store is not
        saved again, so its joined set is kept. */
    method ActivateMissing(due: seq<Meeting>)
      requires Valid()
      modifies this
      ensures Valid()
      ensures active == Activate(old(active), due)
      ensures chats == old(chats) && log == old(log)
    {
      for i := 0 to |due|
        invariant Activate(active, due[i..]) == Activate(old(active), due)
        invariant Valid() && chats == old(chats) && log == old(log)
      {
        var m := due[i];
        assert due[i..][1..] == due[i + 1..];
        if m.meetingId !in active {
          active := active[m.meetingId := ConvertToActiveMeeting(m)];
        }
      }
      assert due[|due|..] == [];
    }

    /** The second half of a tick: every stored meeting whose id is not in
        `keep` is ended, in the store's iteration order. */
    method EndMeetingsNotIn(keep: set<string>, now: int)
      requires Valid()
      modifies this
      ensures Valid()
      ensures active == old(active) - (old(active).Keys - keep)
      ensures chats == old(chats) - (old(active).Keys - keep)
      ensures |log| >= |old(log)| && log[..|old(log)|] == old(log)
      ensures multiset(log[|old(log)|..]) == multiset(ExpiryEntries(old(active), old(active).Keys - keep, now))
    {
      var stored := active.Keys;
      ghost var ended: set<string> := {};
      ghost var written: seq<LogEntry> := [];
      while stored != {}
        invariant stored <= old(active).Keys
        invariant ended == (old(active).Keys - stored) - keep
        invariant active == old(active) - ended && chats == old(chats) - ended
        invariant log == old(log) + written
        invariant multiset(written) == multiset(ExpiryEntries(old(active), ended, now))
        decreases stored
      {
        var id :| id in stored;
        if id !in keep {
          ghost var before := log;
          var _ := EndMeeting(id, now);
          ghost var added := log[|before|..];
          SplitAtPrefix(log, before);
          ConcatAssociative(old(log), written, added);
          ExpiryEntriesGrow(old(active), ended, id, now);
          MultisetOfDisjointUnion(ExpiryEntries(old(active), ended, now),
                                  TimeoutEntries(id, old(active)[id].joined, now));
          RemoveOneMore(old(active), ended, id);
          RemoveOneMore(old(chats), ended, id);
          written := written + added;
          ended := ended + {id};
        }
        VisitOne(old(active).Keys, stored, keep, id);
        stored := stored - {id};
      }
      SplitAtPrefix(log, old(log));
    }

    /** One reconciliation tick at `now`: every due meeting that is not
        active is activated, every active meeting that is no longer due is
        ended, and nothing else changes. */
    method UpdateActiveMeetings(schedule: seq<Meeting>, now: int)
      requires Valid()
      modifies this
      ensures Valid()
      ensures active == Reconciled(old(active), schedule, now)
      ensures active.Keys == DueIds(schedule, now)
      ensures chats == old(chats) - (old(active).Keys - DueIds(schedule, now))
      ensures |log| >= |old(log)| && log[..|old(log)|] == old(log)
      ensures multiset(log[|old(log)|..])
        == multiset(ExpiryEntries(old(active), old(active).Keys - DueIds(schedule, now), now))
    {
      var due := FindActiveMeetings(schedule, now);
      ActivateMissing(due);
      ghost var activated := active;
      ActivateKeys(old(active), due);
      ActivateKeepsActive(old(active), due);
      DueIdsOfQuery(schedule, now);
      var activeIds := Ids(due);
      EndMeetingsNotIn(activeIds, now);
      assert activated.Keys - activeIds == old(active).Keys - DueIds(schedule, now);
      assert ExpiryEntries(activated, activated.Keys - activeIds, now)
        == ExpiryEntries(old(active), old(active).Keys - DueIds(schedule, now), now);
      ReconciledAsRemoval(old(active), schedule, now);
      ReconciledState(old(active), schedule, now);
    }

    /** Looks through the active meetings, in the store's iteration order,
        for one the user has joined. */
    method FindJoinedMeeting(email: string) returns (found: Option<string>)
      ensures found.None? <==> !JoinedSomewhere(email)
      ensures found.Some? ==> found.value in active && email in active[found.value].joined
    {
      var ids := Enumerate(active.Keys);
      found := None;
      var k := 0;
      while k < |ids|
        invariant 0 <= k <= |ids|
        invariant found.None? ==> forall j :: 0 <= j < k ==> email !in active[ids[j]].joined
        invariant found.Some? ==> found.value in active && email in active[found.value].joined
        decreases if found.None? then |ids| - k else 0
      {
        if email in active[ids[k]].joined {
          found := Some(ids[k]);
          break;
        }
        k := k + 1;
      }
      if found.None? {
        forall id | id in active ensures email !in active[id].joined {
          assert id in Elements(ids);
        }
      }
    }

    /** The active meetings that invite the user and lie within reach of
        the position (x, y), each listed once. */
    method FindNearbyMeetings(email: string, x: real, y: real) returns (nearby: seq<string>)
      ensures NoDuplicates(nearby)
      ensures Elements(nearby) == set id | id in active && IsNearby(active[id], email, x, y)
    {
      var ids := Enumerate(active.Keys);
      nearby := [];
      for k := 0 to |ids|
        invariant NoDuplicates(nearby)
        invariant forall id :: id in nearby <==> id in ids[..k] && id in active && IsNearby(active[id], email, x, y)
      {
        var meeting := active[ids[k]];
        assert ids[..k + 1] == ids[..k] + [ids[k]];
        if email in meeting.participants && WithinReach(x, y, meeting.latitude, meeting.longitude) {
          nearby := nearby + [ids[k]];
        }
      }
      assert ids[..|ids|] == ids;
    }

    /** Joins an invited user to an active meeting and logs a JOIN entry;
        joining twice leaves the joined set as it was. */
    method JoinMeeting(email: string, id: string, now: int) returns (ok: bool)
      requires Valid()
      modifies this
      ensures Valid()
      ensures ok <==> id in old(active) && email in old(active)[id].participants
      ensures ok ==> active == old(active)[id := old(active)[id].(joined := old(active)[id].joined + {email})]
      ensures ok ==> log == old(log) + [LogEntry(email, id, now, Join)]
      ensures !ok ==> active == old(active) && log == old(log)
      ensures chats == old(chats)
    {
      if id !in active {
        return false;
      }
      var meeting := active[id];
      if email !in meeting.participants {
        return false;
      }
      active := active[id := meeting.(joined := meeting.joined + {email})];
      log := log + [LogEntry(email, id, now, Join)];
      ok := true;
    }

    /** Removes a joined user from an active meeting and logs a LEAVE entry. */
    method LeaveMeeting(email: string, id: string, now: int) returns (ok: bool)
      requires Valid()
      modifies this
      ensures Valid()
      ensures ok <==> id in old(active) && email in old(active)[id].joined
      ensures ok ==> active == old(active)[id := old(active)[id].(joined := old(active)[id].joined - {email})]
      ensures ok ==> log == old(log) + [LogEntry(email, id, now, Leave)]
      ensures !ok ==> active == old(active) && log == old(log)
      ensures chats == old(chats)
    {
      if id !in active {
        return false;
      }
      var meeting := active[id];
      if email !in meeting.joined {
        return false;
      }
      active := active[id := meeting.(joined := meeting.joined - {email})];
      log := log + [LogEntry(email, id, now, Leave)];
      ok := true;
    }

    /** The users joined to a meeting, each once; none if it is not active. */
    method GetJoinedParticipants(id: string) returns (joined: seq<string>)
      ensures id !in active ==> joined == []
      ensures id in active ==> NoDuplicates(joined) && Elements(joined) == active[id].joined
    {
      if id !in active {
        return [];
      }
      joined := Enumerate(active[id].joined);
    }

    /** The ids of all active meetings, each once. */
    method GetAllActiveMeetings() returns (ids: seq<string>)
      ensures NoDuplicates(ids) && Elements(ids) == active.Keys && |ids| == |active.Keys|
    {
      ids := Enumerate(active.Keys);
    }

    /** Ends an active meeting: one TIME_OUT entry per joined user, then the
        meeting and its chat list are deleted. */
    method EndMeeting(id: string, now: int) returns (ok: bool)
      requires Valid()
      modifies this
      ensures Valid()
      ensures ok <==> id in old(active)
      ensures active == old(active) - {id} && chats == old(chats) - {id}
      ensures |log| >= |old(log)| && log[..|old(log)|] == old(log)
      ensures multiset(log[|old(log)|..])
        == if ok then multiset(TimeoutEntries(id, old(active)[id].joined, now)) else multiset{}
    {
      if id !in active {
        return false;
      }
      var meeting := active[id];
      var emails := Enumerate(meeting.joined);
      ghost var written: seq<LogEntry> := [];
      for k := 0 to |emails|
        invariant active == old(active) && chats == old(chats)
        invariant log == old(log) + written
        invariant multiset(written) == multiset(TimeoutEntries(id, Elements(emails[..k]), now))
      {
        var entry := LogEntry(emails[k], id, now, TimeOut);
        TimeoutEntriesStep(id, emails, k, now);
        log := log + [entry];
        written := written + [entry];
      }
      assert emails[..|emails|] == emails;
      assert log[|old(log)|..] == written;
      active := active - {id};
      chats := chats - {id};
      ok := true;
    }

    /** The chat list of a meeting in the order it was appended; empty when
        the meeting has no list, which is always the case for a meeting that
        is not active. */
    function GetMeetingChatMessages(id: string): (messages: seq<ChatMessage>)
      requires Valid()
      reads this
      ensures id !in active ==> messages == []
    {
      if id in chats then chats[id] else []
    }

    /** Posts a message to the chat of a meeting the user has joined (the
        first such meeting the store hands out); fails if there is none. */
    method PostMessage(email: string, text: string, now: int) returns (ok: bool)
      requires Valid()
      modifies this
      ensures Valid()
      ensures ok <==> old(JoinedSomewhere(email))
      ensures ok ==> exists id :: (id in old(active) && email in old(active)[id].joined
        && chats == old(chats)[id := old(GetMeetingChatMessages(id)) + [ChatMessage(email, text, now)]])
      ensures !ok ==> chats == old(chats)
      ensures active == old(active) && log == old(log)
    {
      var found := FindJoinedMeeting(email);
      if found.None? {
        return false;
      }
      var id := found.value;
      chats := chats[id := GetMeetingChatMessages(id) + [ChatMessage(email, text, now)]];
      ok := true;
    }

    /** The messages a user sent to the meeting they have joined (the first
        such meeting the store hands out), in chat order; none if the user
        has joined no meeting. */
    method GetUserMessages(email: string) returns (mine: seq<ChatMessage>)
      requires Valid()
      ensures !JoinedSomewhere(email) ==> mine == []
      ensures JoinedSomewhere(email) ==> exists id :: (id in active && email in active[id].joined
        && mine == FromSender(GetMeetingChatMessages(id), email))
    {
      var found := FindJoinedMeeting(email);
      if found.None? {
        return [];
      }
      mine := FromSender(GetMeetingChatMessages(found.value), email);
    }
  }
}
