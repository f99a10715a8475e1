/**
 * The cache as a value: group id to group, user id to user, user to log.
 * Every operation of the `MessageCache` classes is specified by a function
 * or relation over these values, and the properties the cache promises are
 * proved here as lemmas about them.
 */
module Views {
  import opened Wrappers
  import opened Sums
  import opened Sorting
  import opened Logs
  import opened Profiles

  type UserId = int
  type GroupId = int

  /** A user's stored details and message log. */
  datatype UserView = UserView(details: Profile, timestamps: seq<int>)

  /** A group's stored details and its users. */
  datatype GroupView = GroupView(details: Profile, users: map<UserId, UserView>)

  type CacheView = map<GroupId, GroupView>

  /** Every log of the group is ascending. */
  ghost predicate GroupAscending(g: GroupView)
  {
    forall u :: u in g.users ==> Ascending(g.users[u].timestamps)
  }

  /** Every log of the cache is ascending. */
  ghost predicate AllAscending(v: CacheView)
  {
    forall g :: g in v ==> GroupAscending(v[g])
  }

  /* ---------------------------------------------------------------- totals */

  function UserCount(u: UserView): int
  {
    |u.timestamps|
  }

  /** `Group.totalNumberOfMessage()`: the sum of the users' log lengths. */
  ghost function GroupTotal(g: GroupView): int
  {
    Total(g.users, UserCount)
  }

  /** `MessageCache.totalNumberOfMessage()`: the sum of the groups' totals. */
  ghost function CacheTotal(v: CacheView): int
  {
    Total(v, GroupTotal)
  }

  /* ------------------------------------------------------------- ingestion */

  /**
   * An incoming message as far as the cache looks at it: any of `chat`,
   * `from` and `date` may be missing, and so may the message itself.
   */
  datatype Message = Message(chat: Option<Profile>, from: Option<Profile>, date: Option<int>)

  /** `MessageCache.isValid(msg)`: the message and its chat, sender and date are all defined. */
  function IsValid(msg: Option<Message>): (valid: bool)
    ensures valid <==> msg.Some? && msg.value.chat.Some? && msg.value.from.Some? && msg.value.date.Some?
  {
    match msg
    case None => false
    case Some(m) => m.chat.Some? && m.from.Some? && m.date.Some?
  }

  /** The log of user `uid` in group `gid`, empty when either is unknown. */
  function LogOf(v: CacheView, gid: GroupId, uid: UserId): seq<int>
  {
    if gid in v && uid in v[gid].users then v[gid].users[uid].timestamps else []
  }

  /**
   * The sender's part of `addMessage` in group `g`: the sender is created
   * when new, their details replaced, and the date appended to their log.
   */
  function Recorded(g: GroupView, uid: UserId, from: Profile, date: int): GroupView
  {
    var log := if uid in g.users then g.users[uid].timestamps else [];
    g.(users := g.users[uid := UserView(from, log + [date])])
  }

  /**
   * `addMessage(msg)` on a valid message: create the group and the user if
   * absent, replace both their details, and append the date to that one log.
   */
  function AddToView(v: CacheView, m: Message): (r: CacheView)
    requires m.chat.Some? && m.from.Some? && m.date.Some?
    ensures var gid, uid := m.chat.value.id, m.from.value.id;
            && r.Keys == v.Keys + {gid}
            && r[gid].details == m.chat.value
            && r[gid].users.Keys == (if gid in v then v[gid].users.Keys else {}) + {uid}
            && r[gid].users[uid] == UserView(m.from.value, LogOf(v, gid, uid) + [m.date.value])
            && (forall g :: g in v && g != gid ==> r[g] == v[g])
            && (forall u :: u in r[gid].users && u != uid ==> r[gid].users[u] == v[gid].users[u])
  {
    var chat, from := m.chat.value, m.from.value;
    var g := if chat.id in v then v[chat.id] else GroupView(chat, map[]);
    v[chat.id := Recorded(g.(details := chat), from.id, from, m.date.value)]
  }

  /** Ingesting a valid message adds exactly one message to the cache's total. */
  lemma AddToViewTotal(v: CacheView, m: Message)
    requires m.chat.Some? && m.from.Some? && m.date.Some?
    ensures CacheTotal(AddToView(v, m)) == CacheTotal(v) + 1
  {
    var gid, uid := m.chat.value.id, m.from.value.id;
    var r := AddToView(v, m);
    var users: map<UserId, UserView> := if gid in v then v[gid].users else map[];
    assert r[gid].users == users[uid := r[gid].users[uid]];
    TotalUpdate(users, uid, r[gid].users[uid], UserCount);
    var none: map<UserId, UserView> := map[];
    assert Total(none, UserCount) == 0;
    assert gid in v ==> GroupTotal(v[gid]) == Total(users, UserCount);
    assert r == v[gid := r[gid]];
    TotalUpdate(v, gid, r[gid], GroupTotal);
  }

  /**
   * Under the cache's arrival assumption (a later message is never dated
   * earlier than the sender's last one), ingestion keeps every log ascending.
   */
  lemma AddToViewKeepsAscending(v: CacheView, m: Message)
    requires m.chat.Some? && m.from.Some? && m.date.Some?
    requires AllAscending(v)
    requires var last := Last(LogOf(v, m.chat.value.id, m.from.value.id));
             last.None? || last.value <= m.date.value
    ensures AllAscending(AddToView(v, m))
  {
    var gid, uid := m.chat.value.id, m.from.value.id;
    var r := AddToView(v, m);
    var log := LogOf(v, gid, uid);
    assert Ascending(log);
    assert Ascending(log + [m.date.value]) by {
      if log != [] {
        assert forall t :: t in log ==> t <= m.date.value;
        assert forall i :: 0 <= i < |log| ==> log[i] in log;
      }
    }
    forall g | g in r
      ensures GroupAscending(r[g])
    {
      if g == gid {
        forall u | u in r[g].users
          ensures Ascending(r[g].users[u].timestamps)
        {
          if u != uid {
            assert GroupAscending(v[gid]);
          }
        }
      } else {
        assert GroupAscending(v[g]);
      }
    }
  }

  /* ----------------------------------------------------------------- sort */

  function SortUser(u: UserView): UserView
  {
    u.(timestamps := SortAscending(u.timestamps))
  }

  function SortGroup(g: GroupView): GroupView
  {
    g.(users := map u | u in g.users :: SortUser(g.users[u]))
  }

  /** `MessageCache.sort()`: every log ascending, a permutation of itself, nothing else touched. */
  function SortCache(v: CacheView): (r: CacheView)
    ensures r.Keys == v.Keys
    ensures forall g :: g in v ==> r[g].details == v[g].details && r[g].users.Keys == v[g].users.Keys
    ensures forall g, u :: g in v && u in v[g].users ==>
              && r[g].users[u].details == v[g].users[u].details
              && Ascending(r[g].users[u].timestamps)
              && multiset(r[g].users[u].timestamps) == multiset(v[g].users[u].timestamps)
    ensures AllAscending(r)
  {
    map g | g in v :: SortGroup(v[g])
  }

  /** Sorting twice is sorting once. */
  lemma SortCacheIdempotent(v: CacheView)
    ensures SortCache(SortCache(v)) == SortCache(v)
  {
    var once := SortCache(v);
    forall g | g in once
      ensures SortGroup(once[g]) == once[g]
    {
      SortGroupIdempotent(v[g]);
    }
  }

  lemma SortGroupIdempotent(g: GroupView)
    ensures SortGroup(SortGroup(g)) == SortGroup(g)
  {
    var once := SortGroup(g);
    forall u | u in once.users
      ensures SortUser(once.users[u]) == once.users[u]
    {
      SortAscendingIdempotent(g.users[u].timestamps);
    }
    assert SortGroup(once).users == once.users;
  }

  /** Sorting loses and gains no message. */
  lemma SortCacheTotal(v: CacheView)
    ensures CacheTotal(SortCache(v)) == CacheTotal(v)
  {
    var r := SortCache(v);
    forall g | g in v
      ensures GroupTotal(r[g]) == GroupTotal(v[g])
    {
      forall u | u in v[g].users
        ensures UserCount(r[g].users[u]) == UserCount(v[g].users[u])
      {
        assert |multiset(r[g].users[u].timestamps)| == |multiset(v[g].users[u].timestamps)|;
      }
      SumOverSame(r[g].users, v[g].users, v[g].users.Keys, UserCount, UserCount);
    }
    SumOverSame(r, v, v.Keys, GroupTotal, GroupTotal);
  }

  /* -------------------------------------------------------------- eviction */

  /** `Group.clearTimestampBefore(time)`, corrected: every log cleared by `Cleared`, nothing else touched. */
  ghost predicate GroupCleared(before: GroupView, after: GroupView, time: int)
  {
    && after.details == before.details
    && after.users.Keys == before.users.Keys
    && forall u :: u in before.users ==>
         && after.users[u].details == before.users[u].details
         && Cleared(before.users[u].timestamps, after.users[u].timestamps, time)
  }

  /** `MessageCache.clearTimestampBefore(time)`, corrected: every group cleared, nothing else touched. */
  ghost predicate CacheCleared(before: CacheView, after: CacheView, time: int)
  {
    && after.Keys == before.Keys
    && forall g :: g in before ==> GroupCleared(before[g], after[g], time)
  }

  /** Clearing never raises the cache's total. */
  lemma ClearNeverIncreases(before: CacheView, after: CacheView, time: int)
    requires CacheCleared(before, after, time)
    ensures CacheTotal(after) <= CacheTotal(before)
  {
    forall g | g in before
      ensures GroupTotal(after[g]) <= GroupTotal(before[g])
    {
      GroupClearNeverIncreases(before[g], after[g], time);
    }
    SumOverMono(after, before, before.Keys, GroupTotal, GroupTotal);
  }

  lemma GroupClearNeverIncreases(before: GroupView, after: GroupView, time: int)
    requires GroupCleared(before, after, time)
    ensures GroupTotal(after) <= GroupTotal(before)
  {
    forall u | u in before.users
      ensures UserCount(after.users[u]) <= UserCount(before.users[u])
    {
      ClearedKeepsAscending(before.users[u].timestamps, after.users[u].timestamps, time);
    }
    SumOverMono(after.users, before.users, before.users.Keys, UserCount, UserCount);
  }

  /**
   * When some log starts before `time`, clearing strictly lowers the
   * total: the stale-message scenario, where the total after is below the total before.
   */
  lemma ClearDropsStale(before: CacheView, after: CacheView, time: int, gid: GroupId, uid: UserId)
    requires CacheCleared(before, after, time)
    requires gid in before && uid in before[gid].users
    requires |before[gid].users[uid].timestamps| != 0 && before[gid].users[uid].timestamps[0] < time
    ensures CacheTotal(after) < CacheTotal(before)
  {
    forall g | g in before
      ensures GroupTotal(after[g]) <= GroupTotal(before[g])
    {
      GroupClearNeverIncreases(before[g], after[g], time);
    }
    var b, a := before[gid], after[gid];
    forall u | u in b.users
      ensures UserCount(a.users[u]) <= UserCount(b.users[u])
    {
      ClearedKeepsAscending(b.users[u].timestamps, a.users[u].timestamps, time);
    }
    SumOverStrict(a.users, b.users, b.users.Keys, UserCount, UserCount, uid);
    SumOverStrict(after, before, before.Keys, GroupTotal, GroupTotal, gid);
  }

  /** Clearing keeps ascending logs ascending. */
  lemma ClearKeepsAscending(before: CacheView, after: CacheView, time: int)
    requires CacheCleared(before, after, time) && AllAscending(before)
    ensures AllAscending(after)
  {
    forall g, u | g in after && u in after[g].users
      ensures Ascending(after[g].users[u].timestamps)
    {
      assert GroupAscending(before[g]);
      ClearedKeepsAscending(before[g].users[u].timestamps, after[g].users[u].timestamps, time);
    }
  }

  /** On ascending logs, clearing evicts exactly the entries before `time`. */
  lemma ClearEvictsPrefix(before: CacheView, after: CacheView, time: int)
    requires CacheCleared(before, after, time) && AllAscending(before)
    ensures forall g, u :: g in before && u in before[g].users ==>
              after[g].users[u].timestamps == EvictBefore(before[g].users[u].timestamps, time)
  {
    forall g, u | g in before && u in before[g].users
      ensures after[g].users[u].timestamps == EvictBefore(before[g].users[u].timestamps, time)
    {
      assert GroupAscending(before[g]);
      ClearedKeepsAscending(before[g].users[u].timestamps, after[g].users[u].timestamps, time);
    }
  }

  /* ----------------------------------------------------------------- rank */

  /** One line of a ranking: the user's details, count in the window and last timestamp. */
  datatype RankEntry = RankEntry(user: Profile, numMsg: int, lastTimestamp: Option<int>)

  /** The comparator subtracts timestamps, so a missing one (`null`) acts as 0. */
  function LastKey(e: RankEntry): int
  {
    if e.lastTimestamp.Some? then e.lastTimestamp.value else 0
  }

  /** `a` may come before `b`: more messages, or as many and a later last message. */
  predicate Precedes(a: RankEntry, b: RankEntry)
  {
    a.numMsg > b.numMsg || (a.numMsg == b.numMsg && LastKey(a) >= LastKey(b))
  }

  predicate RankOrdered(rank: seq<RankEntry>)
  {
    forall i, j :: 0 <= i < j < |rank| ==> Precedes(rank[i], rank[j])
  }

  /** `e` is the line `rank` builds for user `u`. */
  ghost predicate EntryFor(u: UserView, start: int, end: int, e: RankEntry)
  {
    && e.user == u.details
    && e.lastTimestamp == Last(u.timestamps)
    && (Ascending(u.timestamps) || !WindowMayHit(u.timestamps, start, end) ==>
          e.numMsg == WindowCount(u.timestamps, start, end))
  }

  /**
   * `rank` is a ranking of group `g` for the window: one line per user (`ids`
   * lists whose), each line that user's, ordered by count then recency.
   */
  ghost predicate RankedBy(g: GroupView, start: int, end: int, rank: seq<RankEntry>, ids: seq<UserId>)
  {
    && |rank| == |ids| == |g.users|
    && (forall u :: u in g.users ==> u in ids)
    && (forall i :: 0 <= i < |ids| ==> ids[i] in g.users && EntryFor(g.users[ids[i]], start, end, rank[i]))
    && RankOrdered(rank)
  }

  /** The `total` of a ranking: the sum of its counts. */
  function RankTotal(rank: seq<RankEntry>): int
  {
    if rank == [] then 0 else rank[0].numMsg + RankTotal(rank[1..])
  }

  function WindowWeight(start: int, end: int): UserView -> int
  {
    (u: UserView) => WindowCount(u.timestamps, start, end)
  }

  /** The sum over every user of the group of the count in the window. */
  ghost function WindowTotal(g: GroupView, start: int, end: int): int
  {
    Total(g.users, WindowWeight(start, end))
  }

  lemma PrecedesTotalPreorder()
    ensures forall a, b :: Precedes(a, b) || Precedes(b, a)
    ensures forall a, b, c :: Precedes(a, b) && Precedes(b, c) ==> Precedes(a, c)
  {
  }

  /** A line under construction, tagged with the user it belongs to. */
  datatype Slot = Slot(id: UserId, entry: RankEntry)

  predicate SlotLe(a: Slot, b: Slot)
  {
    Precedes(a.entry, b.entry)
  }

  lemma SlotLeTotalPreorder()
    ensures TotalPreorder(SlotLe)
  {
    PrecedesTotalPreorder();
  }

  function Entries(slots: seq<Slot>): (r: seq<RankEntry>)
    ensures |r| == |slots|
    ensures forall i :: 0 <= i < |slots| ==> r[i] == slots[i].entry
  {
    seq(|slots|, i requires 0 <= i < |slots| => slots[i].entry)
  }

  function SlotIds(slots: seq<Slot>): (r: seq<UserId>)
    ensures |r| == |slots|
    ensures forall i :: 0 <= i < |slots| ==> r[i] == slots[i].id
  {
    seq(|slots|, i requires 0 <= i < |slots| => slots[i].id)
  }

  lemma {:induction false} RankTotalSlots(slots: seq<Slot>, x: Slot)
    ensures RankTotal(Entries([x] + slots)) == x.entry.numMsg + RankTotal(Entries(slots))
  {
    assert Entries([x] + slots)[1..] == Entries(slots);
  }

  lemma {:induction false} RankTotalInsert(x: Slot, s: seq<Slot>)
    ensures RankTotal(Entries(InsertBy(x, s, SlotLe))) == x.entry.numMsg + RankTotal(Entries(s))
  {
    if s == [] || SlotLe(x, s[0]) {
      RankTotalSlots(s, x);
    } else {
      assert s == [s[0]] + s[1..];
      RankTotalInsert(x, s[1..]);
      RankTotalSlots(InsertBy(x, s[1..], SlotLe), s[0]);
      RankTotalSlots(s[1..], s[0]);
    }
  }

  /** Sorting the lines does not change the total. */
  lemma {:induction false} RankTotalSort(s: seq<Slot>)
    ensures RankTotal(Entries(SortBy(s, SlotLe))) == RankTotal(Entries(s))
  {
    if s != [] {
      assert s == [s[0]] + s[1..];
      RankTotalSort(s[1..]);
      RankTotalInsert(s[0], SortBy(s[1..], SlotLe));
      RankTotalSlots(s[1..], s[0]);
    }
  }

  lemma {:induction false} RankTotalAppend(rank: seq<RankEntry>, e: RankEntry)
    ensures RankTotal(rank + [e]) == RankTotal(rank) + e.numMsg
  {
    if rank != [] {
      assert (rank + [e])[1..] == rank[1..] + [e];
      RankTotalAppend(rank[1..], e);
    }
  }

  /** `slots` holds one line per user of `g`, each the line `rank` builds for that user. */
  ghost predicate LinesFor(g: GroupView, start: int, end: int, slots: seq<Slot>)
  {
    && |slots| == |g.users|
    && (forall u :: u in g.users ==> exists i :: 0 <= i < |slots| && slots[i].id == u)
    && (forall i :: 0 <= i < |slots| ==>
          slots[i].id in g.users && EntryFor(g.users[slots[i].id], start, end, slots[i].entry))
  }

  /**
   * The state of `rank`'s first loop: `slots` holds a line for every user
   * not in `rest`, and on ascending logs their counts plus the window
   * counts still to come make up the group's window total.
   */
  ghost predicate LinesSoFar(g: GroupView, start: int, end: int, rest: set<UserId>, slots: seq<Slot>)
  {
    && rest <= g.users.Keys
    && |slots| + |rest| == |g.users.Keys|
    && (forall u :: u in g.users && u !in rest ==> exists i :: 0 <= i < |slots| && slots[i].id == u)
    && (forall i :: 0 <= i < |slots| ==>
          slots[i].id in g.users && EntryFor(g.users[slots[i].id], start, end, slots[i].entry))
    && (GroupAscending(g) ==>
          RankTotal(Entries(slots)) + SumOver(g.users, rest, WindowWeight(start, end)) == WindowTotal(g, start, end))
  }

  lemma LinesSoFarStart(g: GroupView, start: int, end: int)
    ensures LinesSoFar(g, start, end, g.users.Keys, [])
  {
    assert Entries([]) == [];
  }

  /** Taking a user out of `rest` and appending their line keeps the loop state. */
  lemma LinesSoFarStep(g: GroupView, start: int, end: int, rest: set<UserId>, slots: seq<Slot>, slot: Slot)
    requires LinesSoFar(g, start, end, rest, slots)
    requires slot.id in rest && EntryFor(g.users[slot.id], start, end, slot.entry)
    ensures LinesSoFar(g, start, end, rest - {slot.id}, slots + [slot])
  {
    var next, left := slots + [slot], rest - {slot.id};
    forall u | u in g.users && u !in left
      ensures exists i :: 0 <= i < |next| && next[i].id == u
    {
      if u == slot.id {
        assert next[|slots|].id == u;
      } else {
        var i :| 0 <= i < |slots| && slots[i].id == u;
        assert next[i].id == u;
      }
    }
    forall i | 0 <= i < |next|
      ensures next[i].id in g.users && EntryFor(g.users[next[i].id], start, end, next[i].entry)
    {
      if i < |slots| {
        assert next[i] == slots[i];
      }
    }
    if GroupAscending(g) {
      SumOverRemove(g.users, rest, WindowWeight(start, end), slot.id);
      assert Entries(next) == Entries(slots) + [slot.entry];
      RankTotalAppend(Entries(slots), slot.entry);
    }
  }

  /** When `rest` is empty, the lines are a full set and add up to the window total. */
  lemma LinesSoFarDone(g: GroupView, start: int, end: int, slots: seq<Slot>)
    requires LinesSoFar(g, start, end, {}, slots)
    ensures LinesFor(g, start, end, slots)
    ensures GroupAscending(g) ==> RankTotal(Entries(slots)) == WindowTotal(g, start, end)
  {
    assert |g.users| == |g.users.Keys|;
    assert SumOver(g.users, {}, WindowWeight(start, end)) == 0;
  }

  /**
   * One line per user, collected in any order and then sorted by `SlotLe`,
   * is a ranking of the group with the same total.
   */
  lemma {:induction false} SortedSlotsRank(g: GroupView, start: int, end: int, slots: seq<Slot>)
    requires LinesFor(g, start, end, slots)
    ensures var sorted := SortBy(slots, SlotLe);
            RankedBy(g, start, end, Entries(sorted), SlotIds(sorted))
    ensures RankTotal(Entries(SortBy(slots, SlotLe))) == RankTotal(Entries(slots))
  {
    var sorted := SortBy(slots, SlotLe);
    SlotLeTotalPreorder();
    SortBySorted(slots, SlotLe);
    RankTotalSort(slots);
    PermutedLines(g, start, end, slots, sorted);
    SortedLinesRank(g, start, end, sorted);
  }

  /** One line per user, sorted by `SlotLe`, is a ranking of the group. */
  lemma SortedLinesRank(g: GroupView, start: int, end: int, slots: seq<Slot>)
    requires LinesFor(g, start, end, slots) && SortedBy(slots, SlotLe)
    ensures RankedBy(g, start, end, Entries(slots), SlotIds(slots))
  {
    var rank, ids := Entries(slots), SlotIds(slots);
    forall u | u in g.users
      ensures u in ids
    {
      var i :| 0 <= i < |slots| && slots[i].id == u;
      assert ids[i] == u;
    }
    assert RankOrdered(rank) by {
      forall i, j | 0 <= i < j < |rank|
        ensures Precedes(rank[i], rank[j])
      {
        assert SlotLe(slots[i], slots[j]);
      }
    }
  }

  /** A permutation of one line per user is again one line per user. */
  lemma PermutedLines(g: GroupView, start: int, end: int, slots: seq<Slot>, sorted: seq<Slot>)
    requires LinesFor(g, start, end, slots)
    requires multiset(sorted) == multiset(slots)
    ensures LinesFor(g, start, end, sorted)
  {
    assert |sorted| == |slots| by {
      assert |multiset(sorted)| == |multiset(slots)|;
    }
    forall i | 0 <= i < |sorted|
      ensures sorted[i].id in g.users && EntryFor(g.users[sorted[i].id], start, end, sorted[i].entry)
    {
      assert sorted[i] in multiset(slots);
      var j :| 0 <= j < |slots| && slots[j] == sorted[i];
    }
    forall u | u in g.users
      ensures exists i :: 0 <= i < |sorted| && sorted[i].id == u
    {
      var j :| 0 <= j < |slots| && slots[j].id == u;
      assert slots[j] in multiset(sorted);
      var i :| 0 <= i < |sorted| && sorted[i] == slots[j];
    }
  }

  /**
   * The literal scenario: user 1 wrote at 10, 20 and 30, user 2 at 15.
   * Any ranking of the window [0, 100] is user 1 with 3 then user 2 with 1,
   * for a total of 4.
   */
  lemma RankScenario(a: Profile, b: Profile, gd: Profile, rank: seq<RankEntry>, ids: seq<UserId>)
    requires RankedBy(GroupView(gd, map[1 := UserView(a, [10, 20, 30]), 2 := UserView(b, [15])]), 0, 100, rank, ids)
    ensures rank == [RankEntry(a, 3, Some(30)), RankEntry(b, 1, Some(15))]
    ensures RankTotal(rank) == 4
  {
    var g := GroupView(gd, map[1 := UserView(a, [10, 20, 30]), 2 := UserView(b, [15])]);
    assert |g.users| == 2 by { assert g.users.Keys == {1, 2}; }
    assert Ascending([10, 20, 30]) && Ascending([15]);
    assert WindowCount([10, 20, 30], 0, 100) == 3;
    assert WindowCount([15], 0, 100) == 1;
    assert 1 in ids && 2 in ids;
    assert ids == [1, 2];
    assert rank[1..] == [rank[1]];
    assert RankTotal(rank[1..]) == 1 + RankTotal([]);
  }

  /* ---------------------------------------------------------------- query */

  /** A query bound: a number, or anything else (a non-number, or NaN). */
  datatype TimeArg = Number(value: int) | NotNumber

  /** The two argument errors `rankByGroupTimestamp` throws. */
  datatype QueryError = StartTimeNotNumber | EndTimeNotNumber

  /** What a query returns: the empty object for an unknown group, or the group's ranking. */
  datatype Ranking = NoGroup | Ranked(group: Profile, total: int, rank: seq<RankEntry>)
}
