/** The batch e-mail notification generator: it collects the pending,
    batch-priority, unexpired notifications, sends one digest per recipient
    with that recipient's most recent ones, and marks exactly those as sent.

    Only the generator's specification is part of this model
    (decidim-core/spec/services/decidim/batch_email_notifications_generator_spec.rb);
    the behaviour below is the one that specification fixes.  The queries
    `events`, `events_for`, `users` and `serialized_events` are functions of
    the stored values; `generate` and `mark_as_sent` are methods of the
    `Generator` class that change the store.  `deliver_later` is an append to
    the generator's outbox, and "now" is a parameter. */
module BatchNotifications {
  import opened Wrappers
  import RubyCore

  type UserId = nat

  /** Seconds on a common clock. */
  type Time = int

  /** The `priority` column of a notification: 0 (the default) is batch. */
  datatype Priority = BatchPriority | NowPriority

  datatype Notification = Notification(
    id: nat,
    userId: UserId,
    resource: nat,
    eventClass: string,
    eventName: string,
    extra: map<string, string>,
    priority: Priority,
    userRole: string,
    createdAt: Time,
    sentAt: Option<Time>)

  /** A user account that still exists. */
  datatype User = User(id: UserId, emailOnNotification: bool)

  /** `batch_email_notifications_max_length` (5 in the specification) and
      `batch_email_notifications_expired`, the age after which a pending
      notification is no longer collected. */
  datatype Settings = Settings(maxLength: nat, expiredAfter: nat)

  /** One entry of `serialized_events`.  The relative age that the source renders
      with `time_ago_in_words` is kept as a number of seconds. */
  datatype SerializedEvent = SerializedEvent(
    resource: nat,
    eventClass: string,
    eventName: string,
    user: UserId,
    extra: map<string, string>,
    priority: Priority,
    userRole: string,
    age: int)

  /** One `BatchNotificationsMailer.event_received(events, user).deliver_later`. */
  datatype Digest = Digest(recipient: UserId, events: seq<SerializedEvent>)

  predicate UniqueIds(store: seq<Notification>) {
    forall i, j :: 0 <= i < j < |store| ==> store[i].id != store[j].id
  }

  predicate AccountsKeyed(accounts: map<UserId, User>) {
    forall u :: u in accounts ==> accounts[u].id == u
  }

  // ---------------------------------------------------------------------
  // events

  /** A notification `events` collects: not sent yet, batch priority, and not
      older than the expiry window. */
  predicate Pending(n: Notification, settings: Settings, now: Time) {
    n.sentAt.None? && n.priority == BatchPriority && n.createdAt >= now - settings.expiredAfter
  }

  /** `events`: every pending notification, with no cap. */
  function Events(store: seq<Notification>, settings: Settings, now: Time): (r: seq<Notification>)
    ensures forall n :: n in r <==> n in store && Pending(n, settings, now)
    ensures multiset(r) <= multiset(store)
  {
    RubyCore.Select(store, n => Pending(n, settings, now))
  }

  /** When every stored notification is pending, `events` returns all of them. */
  lemma EventsReturnsAllPending(store: seq<Notification>, settings: Settings, now: Time)
    requires forall n :: n in store ==> Pending(n, settings, now)
    ensures Events(store, settings, now) == store
  {
    RubyCore.SelectAll(store, n => Pending(n, settings, now));
  }

  /** A notification that has expired while pending is never collected again,
      however many later runs there are. */
  lemma ExpiredStaysExcluded(n: Notification, settings: Settings, now: Time, later: Time)
    requires n.createdAt < now - settings.expiredAfter
    requires now <= later
    ensures !Pending(n, settings, later)
  {
  }

  // ---------------------------------------------------------------------
  // events_for

  /** The pending notifications of one user, in store order. */
  function CandidatesFor(store: seq<Notification>, settings: Settings, now: Time, user: UserId): (r: seq<Notification>)
    ensures forall n :: n in r <==> n in store && Pending(n, settings, now) && n.userId == user
    ensures multiset(r) <= multiset(store)
  {
    if |store| == 0 then []
    else
      var rest := CandidatesFor(store[1..], settings, now, user);
      assert store == [store[0]] + store[1..];
      if Pending(store[0], settings, now) && store[0].userId == user then [store[0]] + rest else rest
  }

  predicate NewestFirst(s: seq<Notification>) {
    forall i, j :: 0 <= i < j < |s| ==> s[j].createdAt <= s[i].createdAt
  }

  /** A sequence whose head is at least as recent as everything in a
      newest-first tail is newest first. */
  lemma NewestFirstCons(x: Notification, t: seq<Notification>)
    requires NewestFirst(t)
    requires forall y :: y in t ==> y.createdAt <= x.createdAt
    ensures NewestFirst([x] + t)
  {
    forall i, j | 0 <= i < j < |t| + 1 ensures ([x] + t)[j].createdAt <= ([x] + t)[i].createdAt {
      assert ([x] + t)[j] == t[j - 1];
      if i > 0 {
        assert ([x] + t)[i] == t[i - 1];
      } else {
        assert t[j - 1] in t;
      }
    }
  }

  /** The head of a newest-first sequence is at least as recent as all of it. */
  lemma HeadIsNewest(s: seq<Notification>)
    requires NewestFirst(s) && |s| > 0
    ensures forall y :: y in s ==> y.createdAt <= s[0].createdAt
  {
    forall y | y in s ensures y.createdAt <= s[0].createdAt {
      var j :| 0 <= j < |s| && s[j] == y;
    }
  }

  function InsertByRecency(n: Notification, s: seq<Notification>): (r: seq<Notification>)
    requires NewestFirst(s)
    ensures NewestFirst(r)
    ensures multiset(r) == multiset(s) + multiset{n}
    ensures |r| == |s| + 1
    ensures forall x :: x in r ==> x == n || x in s
  {
    if |s| == 0 then [n]
    else if s[0].createdAt <= n.createdAt then
      HeadIsNewest(s);
      NewestFirstCons(n, s);
      [n] + s
    else
      var rest := InsertByRecency(n, s[1..]);
      assert s == [s[0]] + s[1..];
      HeadIsNewest(s);
      assert forall y :: y in rest ==> y.createdAt <= s[0].createdAt;
      NewestFirstCons(s[0], rest);
      assert multiset([s[0]] + rest) == multiset{s[0]} + multiset(rest);
      [s[0]] + rest
  }

  /** `order(created_at: :desc)`; notifications created at the same instant keep
      their store order. */
  function SortByRecency(s: seq<Notification>): (r: seq<Notification>)
    ensures NewestFirst(r)
    ensures multiset(r) == multiset(s)
    ensures |r| == |s|
  {
    if |s| == 0 then []
    else
      assert s == [s[0]] + s[1..];
      InsertByRecency(s[0], SortByRecency(s[1..]))
  }

  function Min(a: nat, b: nat): nat {
    if a <= b then a else b
  }

  /** In a newest-first sequence, no element after a prefix is more recent
      than an element of the prefix. */
  lemma PrefixIsNewest(sorted: seq<Notification>, k: nat)
    requires NewestFirst(sorted) && k <= |sorted|
    ensures forall e, f :: e in sorted[..k] && f in sorted && f !in sorted[..k] ==> f.createdAt <= e.createdAt
  {
    assert forall j :: 0 <= j < k ==> sorted[..k][j] == sorted[j];
    forall e, f | e in sorted[..k] && f in sorted && f !in sorted[..k]
      ensures f.createdAt <= e.createdAt
    {
      var j :| 0 <= j < |sorted| && sorted[j] == f;
      var i :| 0 <= i < k && sorted[..k][i] == e;
      assert sorted[i] == e;
    }
  }

  /** `events_for(user)`: the `maxLength` most recent pending notifications of
      `user`, newest first. */
  function EventsFor(store: seq<Notification>, settings: Settings, now: Time, user: UserId): seq<Notification> {
    var sorted := SortByRecency(CandidatesFor(store, settings, now, user));
    sorted[..Min(settings.maxLength, |sorted|)]
  }

  /** What `events_for` returns: as many of the user's pending notifications as
      the cap allows, newest first, and none left out is newer than one taken. */
  lemma EventsForSpec(store: seq<Notification>, settings: Settings, now: Time, user: UserId)
    ensures |EventsFor(store, settings, now, user)| == Min(settings.maxLength, |CandidatesFor(store, settings, now, user)|)
    ensures forall n :: n in EventsFor(store, settings, now, user) ==>
              n in store && Pending(n, settings, now) && n.userId == user
    ensures multiset(EventsFor(store, settings, now, user)) <= multiset(CandidatesFor(store, settings, now, user))
    ensures NewestFirst(EventsFor(store, settings, now, user))
    ensures forall e, f ::
              (e in EventsFor(store, settings, now, user) && f in CandidatesFor(store, settings, now, user) &&
               f !in EventsFor(store, settings, now, user)) ==> f.createdAt <= e.createdAt
  {
    EventsForTaken(store, settings, now, user);
    EventsForLeftOut(store, settings, now, user);
  }

  lemma EventsForTaken(store: seq<Notification>, settings: Settings, now: Time, user: UserId)
    ensures multiset(EventsFor(store, settings, now, user)) <= multiset(CandidatesFor(store, settings, now, user))
    ensures forall n :: n in EventsFor(store, settings, now, user) ==> n in CandidatesFor(store, settings, now, user)
  {
    var candidates := CandidatesFor(store, settings, now, user);
    var sorted := SortByRecency(candidates);
    var k := Min(settings.maxLength, |sorted|);
    PrefixMultiset(sorted, k);
    forall n | n in sorted[..k] ensures n in candidates {
      assert n in multiset(sorted[..k]);
    }
  }

  lemma PrefixMultiset(s: seq<Notification>, k: nat)
    requires k <= |s|
    ensures multiset(s[..k]) <= multiset(s)
  {
    assert s == s[..k] + s[k..];
  }

  lemma EventsForLeftOut(store: seq<Notification>, settings: Settings, now: Time, user: UserId)
    ensures forall e, f ::
              (e in EventsFor(store, settings, now, user) && f in CandidatesFor(store, settings, now, user) &&
               f !in EventsFor(store, settings, now, user)) ==> f.createdAt <= e.createdAt
  {
    var candidates := CandidatesFor(store, settings, now, user);
    var sorted := SortByRecency(candidates);
    var k := Min(settings.maxLength, |sorted|);
    PrefixIsNewest(sorted, k);
    forall f | f in candidates ensures f in sorted {
      assert f in multiset(sorted);
    }
  }

  // ---------------------------------------------------------------------
  // users

  function UserIdsOf(events: seq<Notification>): (r: seq<UserId>)
    ensures |r| == |events|
    ensures forall i :: 0 <= i < |events| ==> r[i] == events[i].userId
  {
    if |events| == 0 then [] else [events[0].userId] + UserIdsOf(events[1..])
  }

  lemma UserIdsOfMember(events: seq<Notification>, u: UserId)
    ensures u in UserIdsOf(events) <==> exists n :: n in events && n.userId == u
  {
    if u in UserIdsOf(events) {
      var i :| 0 <= i < |events| && UserIdsOf(events)[i] == u;
      assert events[i] in events;
    }
  }

  function Lookup(ids: seq<UserId>, accounts: map<UserId, User>): (r: seq<User>)
    requires forall u :: u in ids ==> u in accounts
    ensures |r| == |ids|
    ensures forall i :: 0 <= i < |ids| ==> r[i] == accounts[ids[i]]
  {
    if |ids| == 0 then [] else [accounts[ids[0]]] + Lookup(ids[1..], accounts)
  }

  /** Whether `user` has at least one pending notification. */
  predicate HasPending(store: seq<Notification>, settings: Settings, now: Time, user: UserId) {
    exists n :: n in store && Pending(n, settings, now) && n.userId == user
  }

  /** The distinct ids of existing users that have pending notifications. */
  function PendingUserIds(store: seq<Notification>, accounts: map<UserId, User>, settings: Settings, now: Time): (r: seq<UserId>)
    ensures RubyCore.NoDuplicates(r)
    ensures forall u :: u in r <==> u in accounts && HasPending(store, settings, now, u)
  {
    var ids := RubyCore.Uniq(UserIdsOf(Events(store, settings, now)));
    var r := RubyCore.Select(ids, u => u in accounts);
    assert RubyCore.NoDuplicates(r) by {
      SelectKeepsDistinct(ids, u => u in accounts);
    }
    forall u ensures u in r <==> u in accounts && HasPending(store, settings, now, u) {
      UserIdsOfMember(Events(store, settings, now), u);
    }
    r
  }

  lemma {:induction false} SelectKeepsDistinct<T(!new)>(s: seq<T>, p: T -> bool)
    requires RubyCore.NoDuplicates(s)
    ensures RubyCore.NoDuplicates(RubyCore.Select(s, p))
  {
    if |s| > 0 {
      assert RubyCore.NoDuplicates(s[1..]);
      SelectKeepsDistinct(s[1..], p);
      assert s[0] !in s[1..];
    }
  }

  /** `users`: the distinct existing users with pending notifications. */
  function Users(store: seq<Notification>, accounts: map<UserId, User>, settings: Settings, now: Time): (r: seq<User>)
    requires AccountsKeyed(accounts)
    ensures forall i, j :: 0 <= i < j < |r| ==> r[i].id != r[j].id
    ensures forall u :: u in r ==> u.id in accounts && accounts[u.id] == u && HasPending(store, settings, now, u.id)
    ensures forall id :: id in accounts && HasPending(store, settings, now, id) ==> accounts[id] in r
  {
    var ids := PendingUserIds(store, accounts, settings, now);
    var r := Lookup(ids, accounts);
    LookupProperties(ids, accounts);
    r
  }

  lemma LookupProperties(ids: seq<UserId>, accounts: map<UserId, User>)
    requires AccountsKeyed(accounts)
    requires RubyCore.NoDuplicates(ids)
    requires forall u :: u in ids ==> u in accounts
    ensures var r := Lookup(ids, accounts);
            (forall i, j :: 0 <= i < j < |r| ==> r[i].id != r[j].id) &&
            (forall u :: u in r ==> u.id in ids && accounts[u.id] == u) &&
            (forall id :: id in ids ==> accounts[id] in r)
  {
    var r := Lookup(ids, accounts);
    forall u | u in r ensures u.id in ids && accounts[u.id] == u {
      var i :| 0 <= i < |r| && r[i] == u;
    }
    forall id | id in ids ensures accounts[id] in r {
      var i :| 0 <= i < |ids| && ids[i] == id;
      assert r[i] == accounts[id];
    }
  }

  // ---------------------------------------------------------------------
  // serialized_events

  function SerializeEvent(n: Notification, now: Time): (e: SerializedEvent)
    ensures e.resource == n.resource && e.eventClass == n.eventClass && e.eventName == n.eventName
    ensures e.user == n.userId && e.extra == n.extra && e.priority == n.priority && e.userRole == n.userRole
    ensures e.age == now - n.createdAt
  {
    SerializedEvent(n.resource, n.eventClass, n.eventName, n.userId, n.extra, n.priority, n.userRole, now - n.createdAt)
  }

  /** `serialized_events`: one serialized entry per notification, in order. */
  function SerializedEvents(events: seq<Notification>, now: Time): (r: seq<SerializedEvent>)
    ensures |r| == |events|
    ensures forall i :: 0 <= i < |events| ==> r[i] == SerializeEvent(events[i], now)
  {
    if |events| == 0 then [] else [SerializeEvent(events[0], now)] + SerializedEvents(events[1..], now)
  }

  // ---------------------------------------------------------------------
  // What one `generate` plans: digests and notifications to mark

  /** The digests `generate` hands over for the users `us`, in order: one per
      user who wants e-mail notifications. */
  function PlannedDigests(store: seq<Notification>, settings: Settings, now: Time, us: seq<User>): seq<Digest> {
    if |us| == 0 then []
    else
      var front := PlannedDigests(store, settings, now, us[..|us| - 1]);
      var u := us[|us| - 1];
      if u.emailOnNotification then
        front + [Digest(u.id, SerializedEvents(EventsFor(store, settings, now, u.id), now))]
      else front
  }

  /** Every planned digest goes to a user of `us` who wants e-mail, and holds
      that user's `events_for`, serialized. */
  lemma {:induction false} PlannedDigestsContents(store: seq<Notification>, settings: Settings, now: Time, us: seq<User>)
    ensures forall d :: d in PlannedDigests(store, settings, now, us) ==>
              (exists u :: u in us && u.emailOnNotification && u.id == d.recipient) &&
              d.events == SerializedEvents(EventsFor(store, settings, now, d.recipient), now)
  {
    if |us| > 0 {
      PlannedDigestsContents(store, settings, now, us[..|us| - 1]);
      assert forall v :: v in us[..|us| - 1] ==> v in us;
    }
  }

  function IdsOf(events: seq<Notification>): (r: set<nat>)
    ensures forall n :: n in events ==> n.id in r
    ensures forall id :: id in r ==> exists n :: n in events && n.id == id
  {
    if |events| == 0 then {}
    else
      assert forall n :: n in events ==> n == events[0] || n in events[1..];
      {events[0].id} + IdsOf(events[1..])
  }

  /** The ids of the notifications `generate` marks: those of every digest it sends. */
  function SelectedIds(store: seq<Notification>, settings: Settings, now: Time, us: seq<User>): set<nat> {
    if |us| == 0 then {}
    else
      var front := SelectedIds(store, settings, now, us[..|us| - 1]);
      var u := us[|us| - 1];
      if u.emailOnNotification then front + IdsOf(EventsFor(store, settings, now, u.id)) else front
  }

  /** An id is selected iff it is the id of a notification in the `events_for`
      of a user of `us` who wants e-mail. */
  lemma {:induction false} SelectedIdsMembers(store: seq<Notification>, settings: Settings, now: Time, us: seq<User>)
    ensures forall id :: id in SelectedIds(store, settings, now, us) <==>
              exists u, n :: u in us && u.emailOnNotification && n in EventsFor(store, settings, now, u.id) && n.id == id
  {
    if |us| > 0 {
      SelectedIdsMembers(store, settings, now, us[..|us| - 1]);
      var u := us[|us| - 1];
      assert forall v :: v in us <==> v in us[..|us| - 1] || v == u;
    }
  }

  function Recipients(ds: seq<Digest>): (r: seq<UserId>)
    ensures |r| == |ds|
    ensures forall i :: 0 <= i < |ds| ==> r[i] == ds[i].recipient
  {
    if |ds| == 0 then [] else [ds[0].recipient] + Recipients(ds[1..])
  }

  // ---------------------------------------------------------------------
  // mark_as_sent

  function MarkOne(n: Notification, ids: set<nat>, now: Time): Notification {
    if n.id in ids then n.(sentAt := Some(now)) else n
  }

  /** The store after `update_all(sent_at: now)` on the notifications with ids in `ids`. */
  function MarkedSent(store: seq<Notification>, ids: set<nat>, now: Time): (r: seq<Notification>)
    ensures |r| == |store|
    ensures forall k :: 0 <= k < |store| ==> r[k] == MarkOne(store[k], ids, now)
  {
    if |store| == 0 then [] else [MarkOne(store[0], ids, now)] + MarkedSent(store[1..], ids, now)
  }

  lemma MarkedSentKeepsIds(store: seq<Notification>, ids: set<nat>, now: Time)
    requires UniqueIds(store)
    ensures UniqueIds(MarkedSent(store, ids, now))
  {
  }

  /** Marking leaves every notification of `user` alone when none of the marked
      ids is one of theirs, so the user's `events_for` is the same afterwards. */
  lemma {:induction false} MarkingOthersKeepsCandidates(store: seq<Notification>, ids: set<nat>, settings: Settings, now: Time, user: UserId)
    requires forall n :: n in store && n.userId == user ==> n.id !in ids
    ensures CandidatesFor(MarkedSent(store, ids, now), settings, now, user) == CandidatesFor(store, settings, now, user)
  {
    if |store| > 0 {
      var marked := MarkedSent(store, ids, now);
      assert marked[1..] == MarkedSent(store[1..], ids, now);
      assert forall n :: n in store[1..] ==> n in store;
      MarkingOthersKeepsCandidates(store[1..], ids, settings, now, user);
    }
  }

  // ---------------------------------------------------------------------
  // Properties of one generate run

  /** Every selected notification is pending, is in its owner's `events_for`,
      and its owner is one of the users given a digest. */
  lemma SelectedAreOwned(store: seq<Notification>, settings: Settings, now: Time, us: seq<User>)
    requires UniqueIds(store)
    ensures forall k :: 0 <= k < |store| && store[k].id in SelectedIds(store, settings, now, us) ==>
              Pending(store[k], settings, now) &&
              store[k] in EventsFor(store, settings, now, store[k].userId) &&
              exists u :: u in us && u.emailOnNotification && u.id == store[k].userId
  {
    SelectedIdsMembers(store, settings, now, us);
    forall k | 0 <= k < |store| && store[k].id in SelectedIds(store, settings, now, us)
      ensures Pending(store[k], settings, now)
      ensures store[k] in EventsFor(store, settings, now, store[k].userId)
      ensures exists u :: u in us && u.emailOnNotification && u.id == store[k].userId
    {
      var u, n :| u in us && u.emailOnNotification && n in EventsFor(store, settings, now, u.id) && n.id == store[k].id;
      EventsForSpec(store, settings, now, u.id);
      var j :| 0 <= j < |store| && store[j] == n;
      assert j == k;
    }
  }

  /** Only pending notifications are ever marked: a notification already sent
      keeps its `sent_at`, and now-priority and expired ones are untouched. */
  lemma OnlyPendingAreMarked(store: seq<Notification>, settings: Settings, now: Time, us: seq<User>)
    requires UniqueIds(store)
    ensures forall k :: 0 <= k < |store| && !Pending(store[k], settings, now) ==>
              MarkedSent(store, SelectedIds(store, settings, now, us), now)[k] == store[k]
  {
    SelectedAreOwned(store, settings, now, us);
  }

  /** The notifications of a user that is deleted or does not want e-mail are
      never marked. */
  lemma InactiveUsersUntouched(store: seq<Notification>, accounts: map<UserId, User>, settings: Settings, now: Time)
    requires UniqueIds(store) && AccountsKeyed(accounts)
    ensures var us := Users(store, accounts, settings, now);
            forall k :: 0 <= k < |store| &&
                        (store[k].userId !in accounts || !accounts[store[k].userId].emailOnNotification) ==>
              MarkedSent(store, SelectedIds(store, settings, now, us), now)[k] == store[k]
  {
    var us := Users(store, accounts, settings, now);
    SelectedAreOwned(store, settings, now, us);
  }

  /** For a user who gets a digest, the notifications marked are exactly the
      ones in that digest: their `events_for`, at most `maxLength` of them. */
  lemma MarkedExactlyTheDigest(store: seq<Notification>, accounts: map<UserId, User>, settings: Settings, now: Time, user: UserId)
    requires UniqueIds(store) && AccountsKeyed(accounts)
    requires user in accounts && accounts[user].emailOnNotification
    ensures var us := Users(store, accounts, settings, now);
            forall k :: 0 <= k < |store| && store[k].userId == user ==>
              (MarkedSent(store, SelectedIds(store, settings, now, us), now)[k].sentAt == Some(now) &&
               store[k].sentAt.None?
               <==> store[k] in EventsFor(store, settings, now, user))
  {
    var us := Users(store, accounts, settings, now);
    var ids := SelectedIds(store, settings, now, us);
    var events := EventsFor(store, settings, now, user);
    SelectedAreOwned(store, settings, now, us);
    SelectedIdsMembers(store, settings, now, us);
    EventsForSpec(store, settings, now, user);
    forall k | 0 <= k < |store| && store[k].userId == user && store[k] in events
      ensures store[k].id in ids
    {
      assert Pending(store[k], settings, now);
      assert HasPending(store, settings, now, user);
      assert accounts[user] in us;
    }
  }

  /** Exactly one digest goes to every existing user who wants e-mail and has
      pending notifications, and none to anybody else. */
  lemma OneDigestPerEligibleUser(store: seq<Notification>, accounts: map<UserId, User>, settings: Settings, now: Time)
    requires AccountsKeyed(accounts)
    ensures var ds := PlannedDigests(store, settings, now, Users(store, accounts, settings, now));
            RubyCore.NoDuplicates(Recipients(ds)) &&
            forall u :: u in Recipients(ds) <==>
              u in accounts && accounts[u].emailOnNotification && HasPending(store, settings, now, u)
  {
    var us := Users(store, accounts, settings, now);
    PlannedRecipients(store, settings, now, us);
  }

  lemma PlannedRecipients(store: seq<Notification>, settings: Settings, now: Time, us: seq<User>)
    requires forall i, j :: 0 <= i < j < |us| ==> us[i].id != us[j].id
    ensures var rs := Recipients(PlannedDigests(store, settings, now, us));
            RubyCore.NoDuplicates(rs) &&
            forall u :: u in rs <==> exists v :: v in us && v.emailOnNotification && v.id == u
  {
    RecipientsAreEligible(store, settings, now, us);
    EligibleIdsDistinct(us);
  }

  /** The ids of the users in `us` that want e-mail, in order. */
  function EligibleIds(us: seq<User>): seq<UserId> {
    if |us| == 0 then []
    else EligibleIds(us[..|us| - 1]) + (if us[|us| - 1].emailOnNotification then [us[|us| - 1].id] else [])
  }

  lemma {:induction false} RecipientsAreEligible(store: seq<Notification>, settings: Settings, now: Time, us: seq<User>)
    ensures Recipients(PlannedDigests(store, settings, now, us)) == EligibleIds(us)
  {
    if |us| > 0 {
      var front := us[..|us| - 1];
      var last := us[|us| - 1];
      RecipientsAreEligible(store, settings, now, front);
      if last.emailOnNotification {
        RecipientsSnoc(PlannedDigests(store, settings, now, front),
                       Digest(last.id, SerializedEvents(EventsFor(store, settings, now, last.id), now)));
      }
    }
  }

  lemma {:induction false} EligibleIdsDistinct(us: seq<User>)
    requires forall i, j :: 0 <= i < j < |us| ==> us[i].id != us[j].id
    ensures RubyCore.NoDuplicates(EligibleIds(us))
    ensures forall u :: u in EligibleIds(us) <==> exists v :: v in us && v.emailOnNotification && v.id == u
  {
    if |us| > 0 {
      var front := us[..|us| - 1];
      var last := us[|us| - 1];
      assert forall a, b :: 0 <= a < b < |front| ==> front[a].id != front[b].id;
      EligibleIdsDistinct(front);
      assert forall v :: v in us <==> v in front || v == last;
      forall v | v in front ensures v.id != last.id {
        var i :| 0 <= i < |front| && front[i] == v;
      }
      var e := EligibleIds(front);
      assert last.id !in e;
      assert forall i :: 0 <= i < |e| ==> (e + [last.id])[i] == e[i];
    }
  }

  lemma RecipientsSnoc(ds: seq<Digest>, d: Digest)
    ensures Recipients(ds + [d]) == Recipients(ds) + [d.recipient]
  {
    assert forall i :: 0 <= i < |ds| ==> (ds + [d])[i] == ds[i];
  }

  /** With no pending notification there is no digest and nothing is marked. */
  lemma NoEventsNoDigest(store: seq<Notification>, accounts: map<UserId, User>, settings: Settings, now: Time)
    requires AccountsKeyed(accounts)
    requires Events(store, settings, now) == []
    ensures PlannedDigests(store, settings, now, Users(store, accounts, settings, now)) == []
    ensures SelectedIds(store, settings, now, Users(store, accounts, settings, now)) == {}
  {
    assert UserIdsOf(Events(store, settings, now)) == [];
    assert PendingUserIds(store, accounts, settings, now) == [];
    assert Users(store, accounts, settings, now) == [];
  }

  /** Nothing marked by one run is collected by a later one: no notification is
      sent twice. */
  lemma MarkedNeverCollectedAgain(store: seq<Notification>, ids: set<nat>, settings: Settings, now: Time, later: Time)
    ensures forall n :: n in Events(MarkedSent(store, ids, now), settings, later) ==> n.id !in ids
  {
    forall n | n in Events(MarkedSent(store, ids, now), settings, later)
      ensures n.id !in ids
    {
      var marked := MarkedSent(store, ids, now);
      var k :| 0 <= k < |marked| && marked[k] == n;
    }
  }

  // ---------------------------------------------------------------------
  // The generator

  class Generator {
    /** All notifications, sent or not. */
    var store: seq<Notification>
    /** The user accounts that exist; a deleted user has none. */
    var accounts: map<UserId, User>
    /** The digests handed to the mailer, oldest first. */
    var outbox: seq<Digest>
    const settings: Settings

    ghost predicate Valid()
      reads this
    {
      UniqueIds(store) && AccountsKeyed(accounts)
    }

    constructor (store: seq<Notification>, accounts: map<UserId, User>, settings: Settings)
      requires UniqueIds(store) && AccountsKeyed(accounts)
      ensures Valid()
      ensures this.store == store && this.accounts == accounts && this.settings == settings
      ensures outbox == []
    {
      this.store := store;
      this.accounts := accounts;
      this.settings := settings;
      this.outbox := [];
    }

    /** `mark_as_sent(events)`: sets `sent_at` on the given notifications and on
        no other. */
    method MarkAsSent(events: seq<Notification>, now: Time)
      requires Valid()
      modifies this`store
      ensures Valid()
      ensures store == MarkedSent(old(store), IdsOf(events), now)
    {
      MarkedSentKeepsIds(store, IdsOf(events), now);
      store := MarkedSent(store, IdsOf(events), now);
    }

    /** One turn of `generate`: a user who wants e-mail gets a digest of their
        `events_for`, which are then marked as sent; anybody else is skipped. */
    method Deliver(user: User, now: Time)
      requires Valid()
      modifies this`store, this`outbox
      ensures Valid()
      ensures var events := EventsFor(old(store), settings, now, user.id);
              if user.emailOnNotification then
                outbox == old(outbox) + [Digest(user.id, SerializedEvents(events, now))] &&
                store == MarkedSent(old(store), IdsOf(events), now)
              else
                outbox == old(outbox) && store == old(store)
    {
      if user.emailOnNotification {
        var events := EventsFor(store, settings, now, user.id);
        outbox := outbox + [Digest(user.id, SerializedEvents(events, now))];
        MarkAsSent(events, now);
      }
    }

    /** The loop of `generate` over the users `users`, whose ids are distinct. */
    method DeliverAll(users: seq<User>, now: Time)
      requires Valid()
      requires forall a, b :: 0 <= a < b < |users| ==> users[a].id != users[b].id
      modifies this`store, this`outbox
      ensures Valid()
      ensures outbox == old(outbox) + PlannedDigests(old(store), settings, now, users)
      ensures store == MarkedSent(old(store), SelectedIds(old(store), settings, now, users), now)
    {
      ghost var store0 := store;
      var i := 0;
      assert users[..0] == [];
      MarkedNothing(store0, now);
      while i < |users|
        invariant 0 <= i <= |users|
        invariant Valid()
        invariant store == MarkedSent(store0, SelectedIds(store0, settings, now, users[..i]), now)
        invariant outbox == old(outbox) + PlannedDigests(store0, settings, now, users[..i])
      {
        GenerateStep(store0, settings, now, users, i);
        AppendAssociates(old(outbox), PlannedDigests(store0, settings, now, users[..i]),
                         [Digest(users[i].id, SerializedEvents(EventsFor(store, settings, now, users[i].id), now))]);
        Deliver(users[i], now);
        i := i + 1;
      }
      assert users[..i] == users;
    }

    /** `generate`: one digest per user who still exists and wants e-mail, with
        that user's `events_for`, then marks those notifications as sent. */
    method Generate(now: Time)
      requires Valid()
      modifies this`store, this`outbox
      ensures Valid()
      ensures outbox == old(outbox) + PlannedDigests(old(store), settings, now, Users(old(store), accounts, settings, now))
      ensures store == MarkedSent(old(store), SelectedIds(old(store), settings, now, Users(old(store), accounts, settings, now)), now)
    {
      var users := Users(store, accounts, settings, now);
      DeliverAll(users, now);
    }
  }

  lemma AppendAssociates(a: seq<Digest>, b: seq<Digest>, c: seq<Digest>)
    ensures (a + b) + c == a + (b + c)
  {
  }

  /** Marking no id changes nothing. */
  lemma MarkedNothing(store: seq<Notification>, now: Time)
    ensures MarkedSent(store, {}, now) == store
  {
  }

  /** Marking in two steps is marking the union. */
  lemma MarkedTwice(store: seq<Notification>, a: set<nat>, b: set<nat>, now: Time)
    ensures MarkedSent(MarkedSent(store, a, now), b, now) == MarkedSent(store, a + b, now)
  {
  }

  /** One turn of the `generate` loop: the user's `events_for` is not disturbed by
      the marking done for the users before, and the digest and the marking of
      this turn extend those planned for the prefix. */
  lemma GenerateStep(store0: seq<Notification>, settings: Settings, now: Time, users: seq<User>, i: nat)
    requires UniqueIds(store0)
    requires i < |users|
    requires forall a, b :: 0 <= a < b < |users| ==> users[a].id != users[b].id
    ensures var current := MarkedSent(store0, SelectedIds(store0, settings, now, users[..i]), now);
            var u := users[i];
            var events := EventsFor(current, settings, now, u.id);
            if u.emailOnNotification then
              MarkedSent(current, IdsOf(events), now) ==
                MarkedSent(store0, SelectedIds(store0, settings, now, users[..i + 1]), now) &&
              PlannedDigests(store0, settings, now, users[..i + 1]) ==
                PlannedDigests(store0, settings, now, users[..i]) + [Digest(u.id, SerializedEvents(events, now))]
            else
              SelectedIds(store0, settings, now, users[..i + 1]) == SelectedIds(store0, settings, now, users[..i]) &&
              PlannedDigests(store0, settings, now, users[..i + 1]) == PlannedDigests(store0, settings, now, users[..i])
  {
    var done := SelectedIds(store0, settings, now, users[..i]);
    var u := users[i];
    assert users[..i + 1][..i] == users[..i];
    assert users[..i + 1][i] == u;
    if u.emailOnNotification {
      NotOwnedByLaterUser(store0, settings, now, users, i);
      MarkingOthersKeepsCandidates(store0, done, settings, now, u.id);
      assert EventsFor(MarkedSent(store0, done, now), settings, now, u.id) == EventsFor(store0, settings, now, u.id);
      MarkedTwice(store0, done, IdsOf(EventsFor(store0, settings, now, u.id)), now);
    }
  }

  /** A user later in the list owns none of the notifications already selected
      for the users before it. */
  lemma NotOwnedByLaterUser(store: seq<Notification>, settings: Settings, now: Time, us: seq<User>, i: nat)
    requires UniqueIds(store)
    requires i < |us|
    requires forall a, b :: 0 <= a < b < |us| ==> us[a].id != us[b].id
    ensures forall n :: n in store && n.userId == us[i].id ==> n.id !in SelectedIds(store, settings, now, us[..i])
  {
    SelectedAreOwned(store, settings, now, us[..i]);
    forall u | u in us[..i] ensures u.id != us[i].id {
      var a :| 0 <= a < i && us[..i][a] == u;
    }
    forall n | n in store && n.userId == us[i].id
      ensures n.id !in SelectedIds(store, settings, now, us[..i])
    {
      var p :| 0 <= p < |store| && store[p] == n;
    }
  }
}
