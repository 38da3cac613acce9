/** The client analytics service: an in-memory event queue flushed to the
    analytics endpoint, with a bounded backlog kept in local storage. */
module Analytics {
  import opened Wrappers

  /** A full queue triggers a flush. */
  const MAX_QUEUE_SIZE: nat := 100
  /** The local backlog keeps at most this many events. */
  const MAX_STORED: nat := 1000

  /** A tracked event. Clock readings, the page URL, the referrer and the user
      agent that the browser adds are not modelled. */
  datatype Event = Event(name: string, properties: map<string, string>, userId: Option<string>, sessionId: string)

  /** The newest MAX_STORED events of `s`, in order. */
  function KeepNewest(s: seq<Event>): (r: seq<Event>)
    ensures |r| == if |s| > MAX_STORED then MAX_STORED else |s|
  {
    if |s| > MAX_STORED then s[|s| - MAX_STORED..] else s
  }

  /** The backlog is the newest part of `s`: its last `|r|` events, in order,
      and all of `s` when there is room. */
  lemma KeepNewestSuffix(s: seq<Event>)
    ensures |s| <= MAX_STORED ==> KeepNewest(s) == s
    ensures forall k :: 0 <= k < |KeepNewest(s)| ==> KeepNewest(s)[k] == s[|s| - |KeepNewest(s)| + k]
  {
  }

  /** Trimming after every push keeps the same newest events as trimming once
      at the end: the store drops the oldest events first. */
  lemma KeepNewestPush(s: seq<Event>, e: Event)
    ensures KeepNewest(KeepNewest(s) + [e]) == KeepNewest(s + [e])
  {
    if |s| > MAX_STORED {
      assert (s + [e])[|s| + 1 - MAX_STORED..] == s[|s| + 1 - MAX_STORED..] + [e];
      assert (s[|s| - MAX_STORED..] + [e])[1..] == s[|s| + 1 - MAX_STORED..] + [e];
    }
  }

  /** The backlog after `storeEventLocally` has run for each of `batch`, in order. */
  function StoreAll(stored: seq<Event>, batch: seq<Event>): (r: seq<Event>)
    decreases |batch|
  {
    if batch == [] then stored else StoreAll(KeepNewest(stored + [batch[0]]), batch[1..])
  }

  /** Storing a batch one event at a time keeps exactly the newest MAX_STORED
      events of the old backlog followed by the batch. */
  lemma {:induction false} StoreAllIsNewest(stored: seq<Event>, batch: seq<Event>)
    requires |stored| <= MAX_STORED
    ensures StoreAll(stored, batch) == KeepNewest(stored + batch)
    decreases |batch|
  {
    if batch == [] {
      assert stored + batch == stored;
    } else {
      var s1 := KeepNewest(stored + [batch[0]]);
      StoreAllIsNewest(s1, batch[1..]);
      KeepNewestAppend(stored + [batch[0]], batch[1..]);
      assert stored + [batch[0]] + batch[1..] == stored + batch;
    }
  }

  lemma {:induction false} KeepNewestAppend(s: seq<Event>, t: seq<Event>)
    ensures KeepNewest(KeepNewest(s) + t) == KeepNewest(s + t)
    decreases |t|
  {
    if t != [] {
      var n := |t| - 1;
      KeepNewestAppend(s, t[..n]);
      assert KeepNewest(s) + t == (KeepNewest(s) + t[..n]) + [t[n]];
      assert s + t == (s + t[..n]) + [t[n]];
      KeepNewestPush(KeepNewest(s) + t[..n], t[n]);
      KeepNewestPush(s + t[..n], t[n]);
    } else {
      assert KeepNewest(s) + t == KeepNewest(s) && s + t == s;
    }
  }

  /** One more `storeEventLocally` in a loop over `events`. */
  lemma StoreStep(start: seq<Event>, events: seq<Event>, i: nat)
    requires i < |events|
    ensures KeepNewest(KeepNewest(start + events[..i]) + [events[i]]) == KeepNewest(start + events[..i + 1])
    ensures i == 0 ==> KeepNewest(start + [events[0]]) == KeepNewest(start + events[..1])
  {
    KeepNewestPush(start + events[..i], events[i]);
    assert start + events[..i + 1] == start + events[..i] + [events[i]];
  }

  /** A JavaScript string used as a value: the empty string is falsy. */
  function Truthy(s: Option<string>): (r: Option<string>)
    ensures r.Some? <==> s.Some? && s.value != ""
    ensures r.Some? ==> r == s
  {
    if s.Some? && s.value != "" then s else None
  }

  /** The event `track(name, props)` builds: the caller's properties with the
      session id added, and the user id when one is set and non-empty. */
  function NewEvent(name: string, props: map<string, string>, userId: Option<string>, sessionId: string): (e: Event)
    ensures e.name == name && e.sessionId == sessionId
    ensures e.properties == props["sessionId" := sessionId] && "sessionId" in e.properties
    ensures e.userId.Some? <==> userId.Some? && userId.value != ""
  {
    Event(name, props["sessionId" := sessionId], Truthy(userId), sessionId)
  }

  /**
   * What `track` does with event `e`, from queue `q0`, backlog `st0` and sent
   * batches `sent0` to `q1`, `st1` and `sent1`, with `flushed` the batch a
   * flush put in flight. The event is appended to the queue and then backed up
   * locally; when that fills the queue, the whole queue is flushed: online it
   * is sent as one batch, offline it goes to the backlog, so the new event is
   * backed up twice.
   */
  predicate Tracked(q0: seq<Event>, st0: Option<seq<Event>>, sent0: seq<seq<Event>>, online: bool, e: Event,
                    q1: seq<Event>, st1: Option<seq<Event>>, sent1: seq<seq<Event>>, flushed: Option<seq<Event>>)
  {
    var q := q0 + [e];
    if |q| < MAX_QUEUE_SIZE then
      q1 == q && flushed == None && sent1 == sent0 && st1 == Some(KeepNewest(st0.GetOr([]) + [e]))
    else if online then
      q1 == [] && flushed == Some(q) && sent1 == sent0 + [q] && st1 == Some(KeepNewest(st0.GetOr([]) + [e]))
    else
      q1 == [] && flushed == None && sent1 == sent0 && st1 == Some(KeepNewest(st0.GetOr([]) + q + [e]))
  }

  class Service {
    const sessionId: string
    var userId: Option<string>
    var queue: seq<Event>
    var isOnline: bool
    var pageViews: nat
    var actionsPerformed: nat
    /** The `analytics_events` entry of local storage; `None` when it is absent. */
    var stored: Option<seq<Event>>
    /** The bodies of the POST requests sent to the analytics endpoint. */
    var sent: seq<seq<Event>>

    ghost predicate Valid()
      reads this
    {
      stored.Some? ==> |stored.value| <= MAX_STORED
    }

    /** A new service; it starts by tracking a page view of `pathname`. */
    constructor (sessionId: string, online: bool, stored: Option<seq<Event>>, pathname: string, title: string)
      requires stored.Some? ==> |stored.value| <= MAX_STORED
      ensures Valid()
      ensures this.sessionId == sessionId && userId == None && isOnline == online
      ensures pageViews == 1 && actionsPerformed == 0 && sent == []
      ensures queue == [Event("page_view", map["page" := pathname, "title" := title, "sessionId" := sessionId], None, sessionId)]
      ensures this.stored == Some(KeepNewest(stored.GetOr([]) + queue))
    {
      this.sessionId := sessionId;
      userId, queue, isOnline := None, [], online;
      pageViews, actionsPerformed := 0, 0;
      this.stored, sent := stored, [];
      new;
      var _ := TrackPageView(None, pathname, title);
    }

    /** `storeEventLocally`: append to the backlog, dropping the oldest beyond MAX_STORED. */
    method StoreLocally(e: Event)
      requires Valid()
      modifies this`stored
      ensures Valid()
      ensures stored == Some(KeepNewest(old(stored).GetOr([]) + [e]))
    {
      var events := stored.GetOr([]) + [e];
      if |events| > MAX_STORED {
        events := events[|events| - MAX_STORED..];
      }
      stored := Some(events);
    }

    /** `events.forEach(storeEventLocally)`. */
    method StoreEach(events: seq<Event>)
      requires Valid()
      modifies this`stored
      ensures Valid()
      ensures events == [] ==> stored == old(stored)
      ensures events != [] ==> stored == Some(KeepNewest(old(stored).GetOr([]) + events))
    {
      ghost var start := stored.GetOr([]);
      var i := 0;
      while i < |events|
        invariant 0 <= i <= |events| && Valid()
        invariant i == 0 ==> stored == old(stored)
        invariant i > 0 ==> stored == Some(KeepNewest(start + events[..i]))
      {
        StoreStep(start, events, i);
        StoreLocally(events[i]);
        i := i + 1;
      }
      assert events[..i] == events;
    }

    /** The synchronous part of `flushEvents`: nothing to do for an empty queue;
        otherwise the whole queue is taken and emptied; offline (and not forced)
        the taken events go to the backlog, else they are sent and returned as
        the batch in flight. */
    method BeginFlush(immediate: bool) returns (batch: Option<seq<Event>>)
      requires Valid()
      modifies this`queue, this`stored, this`sent
      ensures Valid()
      ensures old(queue) == [] ==> batch == None && queue == [] && stored == old(stored) && sent == old(sent)
      ensures old(queue) != [] ==> queue == []
      ensures old(queue) != [] && !isOnline && !immediate ==>
        batch == None && sent == old(sent) && stored == Some(KeepNewest(old(stored).GetOr([]) + old(queue)))
      ensures old(queue) != [] && (isOnline || immediate) ==>
        batch == Some(old(queue)) && sent == old(sent) + [old(queue)] && stored == old(stored)
    {
      if queue == [] {
        return None;
      }
      var events := queue;
      queue := [];
      if !isOnline && !immediate {
        StoreEach(events);
        return None;
      }
      sent := sent + [events];
      batch := Some(events);
    }

    /** The rest of `flushEvents`, once the batch's request settles: success
        clears the backlog; failure (a thrown fetch or a non-ok status)
        re-queues the batch ahead of events tracked meanwhile and backs it up. */
    method FinishFlush(batch: seq<Event>, ok: bool)
      requires Valid()
      modifies this`queue, this`stored
      ensures Valid()
      ensures ok ==> stored == None && queue == old(queue)
      ensures !ok ==> queue == batch + old(queue)
      ensures !ok && batch != [] ==> stored == Some(KeepNewest(old(stored).GetOr([]) + batch))
    {
      if ok {
        stored := None;
      } else {
        queue := batch + queue;
        StoreEach(batch);
      }
    }

    /** `track`: append the event; a full queue starts a flush; then back the
        event up locally. Returns the batch a triggered flush put in flight. */
    method Track(name: string, props: map<string, string>) returns (flushed: Option<seq<Event>>)
      requires Valid()
      modifies this`queue, this`stored, this`sent
      ensures Valid()
      ensures Tracked(old(queue), old(stored), old(sent), isOnline, NewEvent(name, props, userId, sessionId),
                      queue, stored, sent, flushed)
    {
      var e := NewEvent(name, props, userId, sessionId);
      ghost var st0 := stored.GetOr([]);
      queue := queue + [e];
      ghost var q := queue;
      flushed := None;
      if |queue| >= MAX_QUEUE_SIZE {
        flushed := BeginFlush(false);
      }
      StoreLocally(e);
      if |q| >= MAX_QUEUE_SIZE && !isOnline {
        KeepNewestAppend(st0 + q, [e]);
      }
    }

    /** `trackPageView`: count the view, then track it; `page` falls back to the
        current pathname when missing or empty. */
    method TrackPageView(page: Option<string>, pathname: string, title: string) returns (flushed: Option<seq<Event>>)
      requires Valid()
      modifies this`pageViews, this`queue, this`stored, this`sent
      ensures Valid()
      ensures pageViews == old(pageViews) + 1
      ensures Tracked(old(queue), old(stored), old(sent), isOnline,
                      NewEvent("page_view", map["page" := Truthy(page).GetOr(pathname), "title" := title], userId, sessionId),
                      queue, stored, sent, flushed)
    {
      pageViews := pageViews + 1;
      flushed := Track("page_view", map["page" := Truthy(page).GetOr(pathname), "title" := title]);
    }

    /** The throttled activity listener. */
    method UpdateLastActivity()
      modifies this`actionsPerformed
      ensures actionsPerformed == old(actionsPerformed) + 1
    {
      actionsPerformed := actionsPerformed + 1;
    }

    /** `setUserId`: later events carry the id (when non-empty); then an
        identification event is tracked. */
    method SetUserId(id: string) returns (flushed: Option<seq<Event>>)
      requires Valid()
      modifies this`userId, this`queue, this`stored, this`sent
      ensures Valid()
      ensures userId == Some(id)
      ensures Tracked(old(queue), old(stored), old(sent), isOnline,
                      NewEvent("user_identified", map["userId" := id], Some(id), sessionId),
                      queue, stored, sent, flushed)
    {
      userId := Some(id);
      flushed := Track("user_identified", map["userId" := id]);
    }

    /** The `online` listener: mark online and flush. */
    method GoOnline() returns (batch: Option<seq<Event>>)
      requires Valid()
      modifies this`isOnline, this`queue, this`stored, this`sent
      ensures Valid() && isOnline && stored == old(stored)
      ensures old(queue) == [] ==> batch == None && queue == [] && sent == old(sent)
      ensures old(queue) != [] ==> batch == Some(old(queue)) && queue == [] && sent == old(sent) + [old(queue)]
    {
      isOnline := true;
      batch := BeginFlush(false);
    }

    /** The `offline` listener. */
    method GoOffline()
      modifies this`isOnline
      ensures !isOnline
    {
      isOnline := false;
    }

    /** `loadStoredEvents`: queue the backlog behind the current queue and flush.
        The backlog itself stays in local storage until a send succeeds. */
    method LoadStoredEvents() returns (batch: Option<seq<Event>>)
      requires Valid()
      modifies this`queue, this`stored, this`sent
      ensures Valid()
      ensures old(stored).None? ==> queue == old(queue) && stored == old(stored) && batch == None && sent == old(sent)
      ensures old(stored).Some? && old(queue) + old(stored).value == [] ==>
        queue == [] && stored == old(stored) && batch == None && sent == old(sent)
      ensures old(stored).Some? && old(queue) + old(stored).value != [] && isOnline ==>
        var q := old(queue) + old(stored).value;
        batch == Some(q) && queue == [] && sent == old(sent) + [q] && stored == old(stored)
      ensures old(stored).Some? && old(queue) + old(stored).value != [] && !isOnline ==>
        batch == None && queue == [] && sent == old(sent)
        && stored == Some(KeepNewest(old(stored).value + old(queue) + old(stored).value))
    {
      if stored.Some? {
        assert stored.value + (queue + stored.value) == stored.value + queue + stored.value;
        queue := queue + stored.value;
        batch := BeginFlush(false);
      } else {
        batch := None;
      }
    }
  }

  /**
   * As written, an event whose send fails is backed up twice: `track` stores
   * it at once, and the failed flush of a batch holding it stores that batch
   * again. While the backlog has room, the event then occurs twice more in it
   * than in the backlog and the rest of the batch.
   */
  lemma {:induction false} FailedFlushStoresTwice(st: seq<Event>, q: seq<Event>, e: Event)
    requires |st| <= MAX_STORED
    ensures var r := KeepNewest(KeepNewest(st + [e]) + (q + [e]));
      r == KeepNewest(st + [e] + q + [e])
      && (|st| + |q| + 2 <= MAX_STORED ==> r == st + [e] + q + [e] && multiset(r)[e] == multiset(st + q)[e] + 2)
  {
    KeepNewestAppend(st + [e], q + [e]);
    assert st + [e] + (q + [e]) == st + [e] + q + [e];
    assert multiset(st + [e] + q + [e]) == multiset(st + q) + multiset{e, e};
  }
}
