/**
 * The cache itself: `User`, `Group` and `MessageCache` objects whose
 * fields the operations update in place. Each class has a ghost `View()`
 * onto the values of module Views, and each method's contract ties its
 * new state (or its result) to a function or a relation over those values.
 */
module Cache {
  import opened Wrappers
  import opened Search
  import opened Logs
  import opened Profiles
  import opened Sums
  import opened Sorting
  import opened Views

  /** One sender in one chat: their latest details and their message timestamps. */
  class User {
    const id: UserId
    var details: Profile
    var timestamps: seq<int>

    ghost function View(): UserView
      reads this
    {
      UserView(details, timestamps)
    }

    constructor (userId: UserId, userDetails: Profile)
      ensures id == userId
      ensures View() == UserView(userDetails, [])
    {
      id := userId;
      details := userDetails;
      timestamps := [];
    }

    /** The newest timestamp (the last one pushed), or none when the log is empty. */
    function LastTimestamp(): (r: Option<int>)
      reads this
      ensures r.None? <==> timestamps == []
      ensures r.Some? ==> r.value == timestamps[|timestamps| - 1]
      ensures r.Some? && Ascending(timestamps) ==> forall t :: t in timestamps ==> t <= r.value
    {
      Last(timestamps)
    }

    method AddTimestamp(t: int)
      modifies this
      ensures View() == UserView(old(details), old(timestamps) + [t])
    {
      timestamps := timestamps + [t];
    }

    function TotalNumberOfMessage(): (r: nat)
      reads this
      ensures r == UserCount(View())
    {
      |timestamps|
    }

    /** The display name, by the precedence of `DisplayName`. */
    function Name(): (r: string)
      reads this
      ensures r == DisplayName(details)
      ensures r == "" <==> !Filled(details.firstName) && !Filled(details.lastName) && !Filled(details.username)
    {
      DisplayName(details)
    }

    /**
     * The number of messages in [start, end], by two binary searches.
     * The guard makes it zero on an empty log and on a window that misses
     * the log; on an ascending log it is `WindowCount`, which is the true
     * count when `start <= end`.
     */
    method NumMsgBetween(start: int, end: int) returns (n: int)
      ensures !WindowMayHit(timestamps, start, end) ==> n == 0
      ensures Ascending(timestamps) ==> n == WindowCount(timestamps, start, end)
      ensures Ascending(timestamps) && start <= end ==> n == CountBetween(timestamps, start, end)
    {
      var ts := timestamps;
      var len := |ts|;
      n := 0;
      if len != 0 && ts[len - 1] >= start && end >= ts[0] {
        var atOrAfterStart := i requires 0 <= i < len => start <= ts[i];
        var atOrBeforeEnd := i requires 0 <= i < len => ts[i] <= end;
        var mi := BsearchMin(-1, len - 1, atOrAfterStart);
        var mx := BsearchMax(0, len, atOrBeforeEnd);
        n := mx - mi + 1;
        if Ascending(ts) {
          assert IncreasingOn(atOrAfterStart, -1, len - 1);
          assert DecreasingOn(atOrBeforeEnd, 0, len);
          forall i | 0 <= i < len
            ensures i < mi ==> ts[i] < start
            ensures mi <= i ==> start <= ts[i]
          {
            if i < len - 1 {
              assert atOrAfterStart(i) == (start <= ts[i]);
            }
          }
          forall i | 0 <= i < len
            ensures i <= mx ==> ts[i] <= end
            ensures mx < i ==> end < ts[i]
          {
            if 0 < i {
              assert atOrBeforeEnd(i) == (ts[i] <= end);
            }
          }
          CountBelowAt(ts, start, mi);
          CountAtMostAt(ts, end, mx + 1);
        }
      }
      if Ascending(ts) && start <= end {
        WindowCountIsCount(ts, start, end);
      }
    }

    /** The user's line in a ranking: details, count in the window, last timestamp. */
    method Line(start: int, end: int) returns (e: RankEntry)
      ensures EntryFor(View(), start, end, e)
    {
      var n := NumMsgBetween(start, end);
      e := RankEntry(details, n, LastTimestamp());
    }

    /** Re-sorts the log ascending, as a numeric `Array.prototype.sort` would. */
    method Sort()
      modifies this
      ensures details == old(details)
      ensures Ascending(timestamps)
      ensures multiset(timestamps) == multiset(old(timestamps))
      ensures View() == SortUser(old(View()))
    {
      timestamps := SortAscending(timestamps);
    }

    /**
     * Drops the old part of the log: when it is non-empty and its first
     * entry lies before `time`, everything up to and including the last
     * index the search finds below `time`. The guard is the corrected
     * `time > ts[0]`; the code's `time >= ts[0]` is `Logs.ClearAsWritten`.
     */
    method ClearTimestampBefore(time: int)
      modifies this
      ensures details == old(details)
      ensures Cleared(old(timestamps), timestamps, time)
    {
      var ts := timestamps;
      var len := |ts|;
      if len != 0 && time > ts[0] {
        var before := i requires 0 <= i < len => ts[i] < time;
        var ix := BsearchMax(0, len, before);
        timestamps := ts[ix + 1..];
        if Ascending(ts) {
          assert DecreasingOn(before, 0, len);
          forall i | 0 <= i < len
            ensures i <= ix ==> ts[i] < time
            ensures ix < i ==> time <= ts[i]
          {
            if 0 < i {
              assert before(i) == (ts[i] < time);
            }
          }
          CountBelowAt(ts, time, ix + 1);
        }
      }
    }
  }

  /**
   * `clearTimestampBefore(time)` on a log exactly as the code writes it,
   * guard `time >= ts[0]` included: the log that is left. On an ascending
   * log this is `ClearAsWritten`, so the over-eviction at `time == ts[0]`
   * follows from the search itself.
   */
  method ClearLogAsWritten(ts: seq<int>, time: int) returns (r: seq<int>)
    ensures |ts| == 0 || time < ts[0] ==> r == ts
    ensures |ts| != 0 && time >= ts[0] ==> |r| < |ts| && r == ts[|ts| - |r|..]
    ensures Ascending(ts) ==> r == ClearAsWritten(ts, time)
  {
    r := ts;
    var len := |ts|;
    if len != 0 && time >= ts[0] {
      var before := i requires 0 <= i < len => ts[i] < time;
      var ix := BsearchMax(0, len, before);
      r := ts[ix + 1..];
      if Ascending(ts) {
        assert DecreasingOn(before, 0, len);
        if time == ts[0] {
          assert !before(ix) by {
            assert ts[0] <= ts[ix];
          }
          CountBelowAt(ts, time, 0);
        } else {
          forall i | 0 <= i < len
            ensures i <= ix ==> ts[i] < time
            ensures ix < i ==> time <= ts[i]
          {
            if 0 < i {
              assert before(i) == (ts[i] < time);
            }
          }
          CountBelowAt(ts, time, ix + 1);
        }
      }
    }
  }

  /** The second loop of `rank`: the sum of the counts, front to back. */
  method RankTotalOf(rank: seq<RankEntry>) returns (total: int)
    ensures total == RankTotal(rank)
  {
    total := 0;
    var i := 0;
    while i < |rank|
      invariant 0 <= i <= |rank|
      invariant total == RankTotal(rank[..i])
    {
      assert rank[..i + 1] == rank[..i] + [rank[i]];
      RankTotalAppend(rank[..i], rank[i]);
      total := total + rank[i].numMsg;
      i := i + 1;
    }
    assert rank[..|rank|] == rank;
  }

  /** One chat: its latest details and its users by id. */
  class Group {
    const id: GroupId
    var details: Profile
    var users: map<UserId, User>
    ghost var Repr: set<object>

    /** Every user object belongs to the group, and no two ids share one. */
    ghost predicate Valid()
      reads this
    {
      && this in Repr
      && (forall u :: u in users ==> users[u] in Repr)
      && (forall u, w :: u in users && w in users && u != w ==> users[u] != users[w])
    }

    ghost function View(): GroupView
      reads this, Repr
      requires Valid()
    {
      GroupView(details, map u | u in users :: users[u].View())
    }

    constructor (groupId: GroupId, groupDetails: Profile)
      ensures Valid() && fresh(Repr)
      ensures id == groupId
      ensures View() == GroupView(groupDetails, map[])
    {
      id := groupId;
      details := groupDetails;
      users := map[];
      Repr := {this};
    }

    /** Puts a new user with an empty log under `uid`, replacing any user already there. */
    method SetUser(uid: UserId, userDetails: Profile)
      requires Valid()
      modifies this
      ensures Valid() && old(Repr) <= Repr && fresh(Repr - old(Repr))
      ensures details == old(details) && users.Keys == old(users.Keys) + {uid}
      ensures View() == old(View()).(users := old(View()).users[uid := UserView(userDetails, [])])
    {
      var user := new User(uid, userDetails);
      users := users[uid := user];
      Repr := Repr + {user};
    }

    /** Replaces the details of user `uid`; does nothing for an unknown id. */
    method ReplaceUserDetails(uid: UserId, userDetails: Profile)
      requires Valid()
      modifies Repr
      ensures Valid() && Repr == old(Repr)
      ensures details == old(details) && users == old(users)
      ensures View() ==
                if uid in old(View()).users
                then old(View()).(users := old(View()).users[uid := old(View()).users[uid].(details := userDetails)])
                else old(View())
    {
      if uid in users {
        var user := users[uid];
        user.details := userDetails;
        assert forall w :: w in users && w != uid ==> users[w].View() == old(users[w].View());
        assert View().users == old(View()).users[uid := old(View()).users[uid].(details := userDetails)];
      }
    }

    /**
     * The part of `addMessage` that works on the chat's group: create the
     * sender when new, replace their details, append the date to their log.
     */
    method RecordMessage(uid: UserId, from: Profile, date: int)
      requires Valid()
      modifies Repr
      ensures Valid() && old(Repr) <= Repr && fresh(Repr - old(Repr))
      ensures details == old(details)
      ensures View() == Recorded(old(View()), uid, from, date)
    {
      ghost var v0 := View();
      ghost var log := if uid in v0.users then v0.users[uid].timestamps else [];
      if uid !in users {
        SetUser(uid, from);
      }
      ReplaceUserDetails(uid, from);
      var user := users[uid];
      ghost var v1 := View();
      assert v1.users[uid] == UserView(from, log);
      user.AddTimestamp(date);
      ghost var expected := v0.users[uid := UserView(from, log + [date])];
      forall u | u in users
        ensures users[u].View() == expected[u]
      {
        if u != uid {
          assert users[u] != user;
          assert users[u].View() == v1.users[u];
        }
      }
      assert View().users == expected;
    }

    /** The number of messages held for the group, over all its users. */
    method TotalNumberOfMessage() returns (count: int)
      requires Valid()
      ensures count == GroupTotal(View())
    {
      ghost var v := View();
      assert v.users.Keys == users.Keys;
      count := 0;
      var rest := users.Keys;
      while rest != {}
        invariant rest <= users.Keys
        invariant count + SumOver(v.users, rest, UserCount) == GroupTotal(v)
        decreases rest
      {
        var uid := Pick(rest);
        SumOverRemove(v.users, rest, UserCount, uid);
        count := count + users[uid].TotalNumberOfMessage();
        rest := rest - {uid};
      }
    }

    /**
     * The first loop of `rank`: one line per user, in the map's order, each
     * holding the user's details, count in the window and last timestamp.
     * On ascending logs the counts add up to the group's window total.
     */
    method Lines(start: int, end: int) returns (slots: seq<Slot>)
      requires Valid()
      ensures LinesFor(View(), start, end, slots)
      ensures GroupAscending(View()) ==> RankTotal(Entries(slots)) == WindowTotal(View(), start, end)
    {
      ghost var v := View();
      assert v.users.Keys == users.Keys;
      LinesSoFarStart(v, start, end);
      slots := [];
      var rest := users.Keys;
      while rest != {}
        invariant LinesSoFar(v, start, end, rest, slots)
        decreases rest
      {
        var uid := Pick(rest);
        var user := users[uid];
        var entry := user.Line(start, end);
        var slot := Slot(uid, entry);
        assert v.users[uid] == user.View();
        LinesSoFarStep(v, start, end, rest, slots, slot);
        slots := slots + [slot];
        rest := rest - {uid};
      }
      LinesSoFarDone(v, start, end, slots);
      assert View() == v;
    }

    /**
     * The group's ranking for the window [start, end]: one line per user,
     * most messages first and, among equals, the latest last message first;
     * `total` adds up the counts. `ids` (ghost) says whose line each is.
     */
    method Rank(start: int, end: int) returns (total: int, rank: seq<RankEntry>, ghost ids: seq<UserId>)
      requires Valid()
      ensures RankedBy(View(), start, end, rank, ids)
      ensures total == RankTotal(rank)
      ensures GroupAscending(View()) ==> total == WindowTotal(View(), start, end)
    {
      ghost var v := View();
      var slots := Lines(start, end);
      assert View() == v;
      SortedSlotsRank(v, start, end, slots);
      var sorted := SortBy(slots, SlotLe);
      rank := Entries(sorted);
      ids := SlotIds(sorted);
      total := RankTotalOf(rank);
      assert View() == v;
    }

    /** Re-sorts every user's log. */
    method Sort()
      requires Valid()
      modifies Repr
      ensures Valid() && Repr == old(Repr)
      ensures details == old(details) && users == old(users)
      ensures View() == SortGroup(old(View()))
    {
      var rest := users.Keys;
      while rest != {}
        invariant rest <= users.Keys
        invariant Valid() && Repr == old(Repr)
        invariant details == old(details) && users == old(users)
        invariant forall u :: u in users ==>
                    && users[u].details == old(users[u].details)
                    && users[u].timestamps == if u in rest then old(users[u].timestamps) else SortAscending(old(users[u].timestamps))
        decreases rest
      {
        var uid := Pick(rest);
        users[uid].Sort();
        rest := rest - {uid};
      }
      ghost var sorted := SortGroup(old(View()));
      forall u | u in users
        ensures View().users[u] == sorted.users[u]
      {
      }
      assert View().users == sorted.users;
    }

    /** Clears every user's log before `time`. */
    method ClearTimestampBefore(time: int)
      requires Valid()
      modifies Repr
      ensures Valid() && Repr == old(Repr)
      ensures details == old(details) && users == old(users)
      ensures GroupCleared(old(View()), View(), time)
    {
      var rest := users.Keys;
      while rest != {}
        invariant rest <= users.Keys
        invariant Valid() && Repr == old(Repr)
        invariant details == old(details) && users == old(users)
        invariant forall u :: u in users ==>
                    && users[u].details == old(users[u].details)
                    && (u in rest ==> users[u].timestamps == old(users[u].timestamps))
                    && (u !in rest ==> Cleared(old(users[u].timestamps), users[u].timestamps, time))
        decreases rest
      {
        var uid := Pick(rest);
        users[uid].ClearTimestampBefore(time);
        rest := rest - {uid};
      }
    }
  }

  /** The cache: every chat it has seen, by id. */
  class MessageCache {
    var groups: map<GroupId, Group>
    ghost var Repr: set<object>

    /** Each group is valid and owns its objects; no two groups share one. */
    ghost predicate Valid()
      reads this, Repr
    {
      && this in Repr
      && (forall g :: g in groups ==>
            && groups[g] in Repr
            && groups[g].Repr <= Repr
            && this !in groups[g].Repr
            && groups[g].Valid())
      && (forall g, h :: g in groups && h in groups && g != h ==> groups[g].Repr !! groups[h].Repr)
    }

    ghost function View(): CacheView
      reads this, Repr
      requires Valid()
    {
      map g | g in groups :: groups[g].View()
    }

    constructor ()
      ensures Valid() && fresh(Repr)
      ensures View() == map[]
    {
      groups := map[];
      Repr := {this};
    }

    /** Puts a new group with no users under `gid`, replacing any group already there. */
    method SetGroup(gid: GroupId, groupDetails: Profile)
      requires Valid()
      modifies this
      ensures Valid() && fresh(Repr - old(Repr))
      ensures View() == old(View())[gid := GroupView(groupDetails, map[])]
    {
      ghost var before := View();
      var group := new Group(gid, groupDetails);
      groups := groups[gid := group];
      Repr := Repr + group.Repr;
      forall h | h in groups && h != gid
        ensures groups[h].Repr !! group.Repr
        ensures groups[h].View() == before[h]
      {
        assert groups[h].Repr <= old(Repr);
      }
      assert Valid();
      ghost var expected := before[gid := GroupView(groupDetails, map[])];
      forall h | h in groups
        ensures groups[h].View() == expected[h]
      {
      }
      assert View() == expected;
    }

    /** Replaces the details of group `gid`; does nothing for an unknown id. */
    method ReplaceGroupDetails(gid: GroupId, groupDetails: Profile)
      requires Valid()
      modifies Repr
      ensures Valid() && Repr == old(Repr) && groups == old(groups)
      ensures View() ==
                if gid in old(View())
                then old(View())[gid := old(View())[gid].(details := groupDetails)]
                else old(View())
    {
      if gid in groups {
        ghost var before := View();
        var group := groups[gid];
        group.details := groupDetails;
        forall u | u in group.users
          ensures group.users[u].View() == before[gid].users[u]
        {
        }
        ghost var expected := before[gid := before[gid].(details := groupDetails)];
        forall h | h in groups
          ensures groups[h].View() == expected[h]
        {
          if h != gid {
            assert group in groups[gid].Repr;
            assert group !in groups[h].Repr;
          }
        }
        assert View() == expected;
      }
    }

    /**
     * Ingests one message: a message missing its chat, sender or date is
     * refused; otherwise the chat and the sender are created when new,
     * their details replaced by the message's, and the date appended to
     * that sender's log in that chat.
     */
    method AddMessage(msg: Option<Message>) returns (ok: bool)
      requires Valid()
      modifies Repr
      ensures Valid() && fresh(Repr - old(Repr))
      ensures ok == IsValid(msg)
      ensures ok ==> View() == AddToView(old(View()), msg.value)
      ensures !ok ==> View() == old(View())
    {
      if !IsValid(msg) {
        return false;
      }
      var m := msg.value;
      var chat, from, date := m.chat.value, m.from.value, m.date.value;
      var gid, uid := chat.id, from.id;
      ghost var v0 := View();
      ghost var g := if gid in v0 then v0[gid] else GroupView(chat, map[]);
      if gid !in groups {
        SetGroup(gid, chat);
      }
      assert gid in groups && View() == v0[gid := g];
      ReplaceGroupDetails(gid, chat);
      assert View() == v0[gid := g.(details := chat)];
      RecordInGroup(gid, uid, from, date);
      assert View() == v0[gid := Recorded(g.(details := chat), uid, from, date)];
      ok := true;
    }

    /** The rest of `addMessage`, once the chat's group exists: record the sender's message there. */
    method RecordInGroup(gid: GroupId, uid: UserId, from: Profile, date: int)
      requires Valid() && gid in groups
      modifies Repr
      ensures Valid() && fresh(Repr - old(Repr))
      ensures View() == old(View())[gid := Recorded(old(View())[gid], uid, from, date)]
    {
      var group := groups[gid];
      ghost var v1 := View();
      ghost var owned, reprBefore := group.Repr, Repr;
      group.RecordMessage(uid, from, date);
      Repr := Repr + group.Repr;
      forall h | h in groups && h != gid
        ensures groups[h].Repr == old(groups[h].Repr) && groups[h].Valid()
        ensures groups[h].Repr !! group.Repr
        ensures groups[h].View() == v1[h]
      {
        assert groups[h].Repr !! owned;
        assert groups[h].Repr <= reprBefore;
      }
      assert this !in group.Repr;
      assert Valid();
      ghost var expected := v1[gid := Recorded(v1[gid], uid, from, date)];
      forall h | h in groups
        ensures groups[h].View() == expected[h]
      {
      }
      assert View() == expected;
    }

    /** The number of messages held, over all groups. */
    method TotalNumberOfMessage() returns (count: int)
      requires Valid()
      ensures count == CacheTotal(View())
    {
      ghost var v := View();
      assert v.Keys == groups.Keys;
      count := 0;
      var rest := groups.Keys;
      while rest != {}
        invariant rest <= groups.Keys
        invariant count + SumOver(v, rest, GroupTotal) == CacheTotal(v)
        decreases rest
      {
        var gid := Pick(rest);
        SumOverRemove(v, rest, GroupTotal, gid);
        var n := groups[gid].TotalNumberOfMessage();
        count := count + n;
        rest := rest - {gid};
      }
    }

    /**
     * The ranking of chat `gid` for the window [start, end]. A bound that is
     * not a number is an error, the start checked first; an unknown chat
     * gives the empty answer. `ids` (ghost) says whose line each is.
     */
    method RankByGroupTimestamp(gid: GroupId, startTime: TimeArg, endTime: TimeArg)
      returns (r: Result<Ranking, QueryError>, ghost ids: seq<UserId>)
      requires Valid()
      ensures !startTime.Number? ==> r == Failure(StartTimeNotNumber)
      ensures startTime.Number? && !endTime.Number? ==> r == Failure(EndTimeNotNumber)
      ensures startTime.Number? && endTime.Number? ==> r.Success?
      ensures r.Success? && gid !in View() ==> r.value == NoGroup
      ensures r.Success? && gid in View() ==>
                var g, start, end := View()[gid], startTime.value, endTime.value;
                && r.value.Ranked?
                && r.value.group == g.details
                && RankedBy(g, start, end, r.value.rank, ids)
                && r.value.total == RankTotal(r.value.rank)
                && (GroupAscending(g) ==> r.value.total == WindowTotal(g, start, end))
    {
      ids := [];
      if !startTime.Number? {
        return Failure(StartTimeNotNumber), ids;
      }
      if !endTime.Number? {
        return Failure(EndTimeNotNumber), ids;
      }
      if gid in groups {
        var group := groups[gid];
        var total, rank;
        total, rank, ids := group.Rank(startTime.value, endTime.value);
        r := Success(Ranked(group.details, total, rank));
      } else {
        r := Success(NoGroup);
      }
    }

    /** Re-sorts every log of every group. */
    method Sort()
      requires Valid()
      modifies Repr
      ensures Valid() && Repr == old(Repr)
      ensures View() == SortCache(old(View()))
    {
      ghost var v0 := View();
      var rest := groups.Keys;
      while rest != {}
        invariant rest <= groups.Keys == v0.Keys
        invariant Valid() && Repr == old(Repr)
        invariant forall g :: g in groups ==>
                    groups[g].View() == if g in rest then v0[g] else SortGroup(v0[g])
        decreases rest
      {
        var gid := Pick(rest);
        SortOneGroup(gid);
        rest := rest - {gid};
      }
      forall g | g in groups
        ensures View()[g] == SortCache(v0)[g]
      {
      }
      assert View() == SortCache(v0);
    }

    /** One step of `sort`: re-sorts the logs of group `gid` and touches no other group. */
    method SortOneGroup(gid: GroupId)
      requires Valid() && gid in groups
      modifies Repr
      ensures Valid() && Repr == old(Repr) && groups == old(groups)
      ensures groups[gid].View() == SortGroup(old(groups[gid].View()))
      ensures forall h :: h in groups && h != gid ==> groups[h].View() == old(groups[h].View())
    {
      var group := groups[gid];
      ghost var before := View();
      ghost var owned := group.Repr;
      group.Sort();
      forall h | h in groups && h != gid
        ensures groups[h].View() == before[h]
      {
        assert groups[h].Repr !! owned;
      }
    }

    /** Clears every log of every group before `time`. */
    method ClearTimestampBefore(time: int)
      requires Valid()
      modifies Repr
      ensures Valid() && Repr == old(Repr)
      ensures CacheCleared(old(View()), View(), time)
    {
      ghost var v0 := View();
      var rest := groups.Keys;
      while rest != {}
        invariant rest <= groups.Keys == v0.Keys
        invariant Valid() && Repr == old(Repr)
        invariant forall g :: g in groups ==>
                    if g in rest then groups[g].View() == v0[g] else GroupCleared(v0[g], groups[g].View(), time)
        decreases rest
      {
        var gid := Pick(rest);
        ClearOneGroup(gid, time);
        rest := rest - {gid};
      }
    }

    /** One step of `clearTimestampBefore`: clears the logs of group `gid` and touches no other group. */
    method ClearOneGroup(gid: GroupId, time: int)
      requires Valid() && gid in groups
      modifies Repr
      ensures Valid() && Repr == old(Repr) && groups == old(groups)
      ensures GroupCleared(old(groups[gid].View()), groups[gid].View(), time)
      ensures forall h :: h in groups && h != gid ==> groups[h].View() == old(groups[h].View())
    {
      var group := groups[gid];
      ghost var before := View();
      ghost var owned := group.Repr;
      group.ClearTimestampBefore(time);
      forall h | h in groups && h != gid
        ensures groups[h].View() == before[h]
      {
        assert groups[h].Repr !! owned;
      }
    }
  }
}
