/** The offline service worker of the web client: request routing, the three
    caching strategies, cache generations, background-sync replay of pending
    uploads and operations, and push notifications. */
module ServiceWorker {
  import opened Wrappers
  import opened Text
  import opened CacheStore

  /** The version string of the unused generic cache (never opened, so activation deletes it). */
  const CACHE_NAME := "pdf-organizer-v3.0.0"
  const STATIC_CACHE := "pdf-organizer-static-v3.0.0"
  const DYNAMIC_CACHE := "pdf-organizer-dynamic-v3.0.0"

  /** The app shell pre-cached at install time, as paths on the worker's own origin. */
  const STATIC_FILES: seq<string> :=
    ["/", "/index.html", "/manifest.json", "/icons/icon-192x192.png", "/icons/icon-512x512.png"]

  const ICON := "/icons/icon-192x192.png"
  const BADGE := "/icons/badge-72x72.png"

  /** A request as the fetch event delivers it: its method, the parts of its URL,
      and whether it is a navigation (`request.mode === 'navigate'`). */
  datatype Request = Request(verb: string, origin: string, path: string, search: string, navigate: bool)

  /** `request.url`, the key under which caches store and look up a request. */
  function Url(req: Request): string {
    req.origin + req.path + req.search
  }

  /** What the network did with a request: it resolved with some response (of any
      status), or the fetch promise rejected. */
  datatype FetchOutcome = Resolved(resp: Response) | Throws

  /** What the worker gives the page: a response, a rejected promise (which the
      page sees as a network error), or nothing because it did not intercept. */
  datatype Reply = Respond(resp: Response) | NetworkError | NotIntercepted

  /** Handing the network's outcome to the page unchanged (`return fetch(request)`). */
  function PassThrough(net: FetchOutcome): Reply {
    match net
    case Resolved(r) => Respond(r)
    case Throws => NetworkError
  }

  const OFFLINE_API := Response(503, "application/json",
    "{\"error\":\"Offline\",\"message\":\"Você está offline. Algumas funcionalidades podem não estar disponíveis.\"}")

  /** The inline offline page; its markup is stood for by the page's title. */
  const OFFLINE_PAGE := Response(200, "text/html", "PDF Organizer - Offline")

  /** The handler a fetch event goes to. */
  datatype Route = Skip | Api | Static | External

  /** The fetch listener's dispatch: only GET requests are intercepted; same-origin
      `/api/` paths go to the API handler, other same-origin paths to the static
      handler, all cross-origin requests to the external handler. */
  function RouteOf(req: Request, self: string): (r: Route)
    ensures r == Skip <==> req.verb != "GET"
    ensures r == Api <==> req.verb == "GET" && req.origin == self && StartsWith(req.path, "/api/")
    ensures r == Static <==> req.verb == "GET" && req.origin == self && !StartsWith(req.path, "/api/")
    ensures r == External <==> req.verb == "GET" && req.origin != self
  {
    if req.verb != "GET" then Skip
    else if req.origin == self then (if StartsWith(req.path, "/api/") then Api else Static)
    else External
  }

  /** The three API_CACHE_PATTERNS matched against the pathname: the first and last
      are anchored at the end (`$`), the middle one matches anywhere. */
  function ShouldCache(path: string): (r: bool)
    ensures r <==> (|| EndsWith(path, "/api/users/me")
                    || (exists i :: OccursAt(path, "/api/pdf/projects/", i))
                    || EndsWith(path, "/api/users/stats"))
  {
    EndsWith(path, "/api/users/me") || Contains(path, "/api/pdf/projects/") || EndsWith(path, "/api/users/stats")
  }

  /** External responses are kept only when the URL names a CDN or a font host. */
  function ExternalCacheable(url: string): (r: bool)
    ensures r <==> (exists i :: OccursAt(url, "cdn", i)) || (exists i :: OccursAt(url, "fonts", i))
  {
    Contains(url, "cdn") || Contains(url, "fonts")
  }

  /** The API paths the worker caches: those ending in `/api/users/me` or
      `/api/users/stats`, and every path with `/api/pdf/projects/` in it; so a
      longer path under `/api/users/me/` is not cached, nor is anything under `/api/auth/`. */
  lemma ShouldCacheShapes(path: string)
    ensures ShouldCache(path) <==>
      (exists a :: path == a + "/api/users/me") || (exists a :: path == a + "/api/users/stats")
      || (exists a, b :: path == a + "/api/pdf/projects/" + b)
  {
    EndsWithSplits(path, "/api/users/me");
    EndsWithSplits(path, "/api/users/stats");
    ContainsSplits(path, "/api/pdf/projects/");
  }

  /** The login endpoint is not cached: it names none of the cached prefixes or endings. */
  lemma ShouldCacheExcludesLogin()
    ensures !ShouldCache("/api/auth/login")
  {
    var p := "/api/auth/login";
    assert p[2] == 'p';
  }

  /** A path below `/api/users/me/` is not cached: the ending must be exact. */
  lemma ShouldCacheExcludesBelowMe()
    ensures !ShouldCache("/api/users/me/x")
  {
    var p := "/api/users/me/x";
    assert p[2] == 'p' && p[3] == 'i';
  }

  /** A cross-origin response is kept exactly when `cdn` or `fonts` occurs in its URL. */
  lemma ExternalCacheableShapes(url: string)
    ensures ExternalCacheable(url) <==> (exists a, b :: url == a + "cdn" + b) || (exists a, b :: url == a + "fonts" + b)
  {
    ContainsSplits(url, "cdn");
    ContainsSplits(url, "fonts");
  }

  /** The API handler's answer when the network throws: the cached copy, else
      the 503 offline JSON. */
  function ApiFallback(cs: Caches, key: string): (r: Response)
    ensures Match(cs, key).Some? ==> r == Match(cs, key).value
    ensures Match(cs, key).None? ==> r == OFFLINE_API
  {
    match Match(cs, key)
    case Some(c) => c
    case None => OFFLINE_API
  }

  /** The static handler's answer when the network throws: the cached entry, else
      the cached app shell for a navigation, else the inline offline page. */
  function StaticFallback(cs: Caches, self: string, req: Request): Response
  {
    match Match(cs, Url(req))
    case Some(c) => c
    case None =>
      if req.navigate && Match(cs, self + "/index.html").Some? then Match(cs, self + "/index.html").value
      else OFFLINE_PAGE
  }

  /** With only `ok` responses cached, a static request whose fetch throws is
      still answered with an `ok` response: the fallback chain never fails. */
  lemma StaticFallbackOk(cs: Caches, self: string, req: Request)
    requires AllOk(cs)
    ensures Ok(StaticFallback(cs, self, req))
  {
    var key := Url(req);
    if Match(cs, key).Some? {
      var i :| 0 <= i < |cs| && key in cs[i].entries && cs[i].entries[key] == Match(cs, key).value;
    } else if req.navigate && Match(cs, self + "/index.html").Some? {
      var i :| 0 <= i < |cs| && self + "/index.html" in cs[i].entries
        && cs[i].entries[self + "/index.html"] == Match(cs, self + "/index.html").value;
    }
  }

  /** `cache.addAll(urls)`: every URL written to the named cache, in order. */
  function PutAll(cs: Caches, name: string, keys: seq<string>, resps: seq<Response>): Caches
    requires |keys| == |resps|
    decreases |keys|
  {
    if keys == [] then cs else PutAll(Put(cs, name, keys[0], resps[0]), name, keys[1..], resps[1..])
  }

  /** Every pre-cached URL is found in the caches afterwards, and every other
      URL's lookup is unaffected. */
  lemma {:induction false} PutAllMatches(cs: Caches, name: string, keys: seq<string>, resps: seq<Response>, k: string)
    requires |keys| == |resps| && UniqueNames(cs)
    ensures k in keys || Match(cs, k).Some? ==> Match(PutAll(cs, name, keys, resps), k).Some?
    ensures k !in keys ==> Match(PutAll(cs, name, keys, resps), k) == Match(cs, k)
    decreases |keys|
  {
    if keys != [] {
      MatchAfterPut(cs, name, keys[0], resps[0], k);
      PutKeepsUniqueNames(cs, name, keys[0], resps[0]);
      PutAllMatches(Put(cs, name, keys[0], resps[0]), name, keys[1..], resps[1..], k);
    }
  }

  lemma {:induction false} PutAllKeeps(cs: Caches, name: string, keys: seq<string>, resps: seq<Response>)
    requires |keys| == |resps|
    requires AllOk(cs) && UniqueNames(cs)
    requires forall i :: 0 <= i < |resps| ==> Ok(resps[i])
    ensures AllOk(PutAll(cs, name, keys, resps)) && UniqueNames(PutAll(cs, name, keys, resps))
    decreases |keys|
  {
    if keys != [] {
      PutKeepsAllOk(cs, name, keys[0], resps[0]);
      PutKeepsUniqueNames(cs, name, keys[0], resps[0]);
      PutAllKeeps(Put(cs, name, keys[0], resps[0]), name, keys[1..], resps[1..]);
    }
  }

  /** The URLs `addAll` fetches: the static files resolved against the worker's origin. */
  function StaticKeys(self: string): (ks: seq<string>)
    ensures |ks| == |STATIC_FILES| && forall i :: 0 <= i < |ks| ==> ks[i] == self + STATIC_FILES[i]
  {
    seq(|STATIC_FILES|, i requires 0 <= i < |STATIC_FILES| => self + STATIC_FILES[i])
  }

  /** `addAll` succeeds only if every fetch resolved with an `ok` response. */
  predicate AllFetched(outcomes: seq<FetchOutcome>) {
    forall i :: 0 <= i < |outcomes| ==> outcomes[i].Resolved? && Ok(outcomes[i].resp)
  }

  function Responses(outcomes: seq<FetchOutcome>): (rs: seq<Response>)
    requires AllFetched(outcomes)
    ensures |rs| == |outcomes| && forall i :: 0 <= i < |rs| ==> rs[i] == outcomes[i].resp && Ok(rs[i])
  {
    seq(|outcomes|, i requires 0 <= i < |outcomes| => outcomes[i].resp)
  }

  /** Whether a cache belongs to the current generation. */
  predicate Current(name: string) {
    name == STATIC_CACHE || name == DYNAMIC_CACHE
  }

  /** The caches that survive activation, in their order. */
  function Pruned(cs: Caches): (r: Caches)
    decreases |cs|
  {
    if cs == [] then [] else (if Current(cs[0].name) then [cs[0]] else []) + Pruned(cs[1..])
  }

  lemma {:induction false} PrunedAppend(a: Caches, b: Caches)
    ensures Pruned(a + b) == Pruned(a) + Pruned(b)
    decreases |a|
  {
    if a != [] {
      assert (a + b)[0] == a[0];
      assert (a + b)[1..] == a[1..] + b;
      PrunedAppend(a[1..], b);
    } else {
      assert a + b == b;
    }
  }

  /** Activation keeps exactly the current generation: a cache survives iff it is
      STATIC_CACHE or DYNAMIC_CACHE (with all its entries), so every other cache,
      CACHE_NAME among them, is gone; and activating twice changes nothing more. */
  lemma {:induction false} PrunedKeepsCurrent(cs: Caches)
    ensures forall s :: s in Pruned(cs) <==> s in cs && Current(s.name)
    ensures forall s :: s in Pruned(cs) ==> s.name != CACHE_NAME
    ensures Pruned(Pruned(cs)) == Pruned(cs)
    decreases |cs|
  {
    if cs != [] {
      var h := if Current(cs[0].name) then [cs[0]] else [];
      PrunedKeepsCurrent(cs[1..]);
      assert cs == [cs[0]] + cs[1..];
      PrunedAppend(h, Pruned(cs[1..]));
      if h != [] {
        assert h[1..] == [];
      }
      assert Pruned(h) == h;
    }
  }

  /** Activation keeps the caches' invariants. */
  lemma {:induction false} PrunedValid(cs: Caches)
    ensures forall s :: s in Pruned(cs) ==> s in cs
    ensures AllOk(cs) ==> AllOk(Pruned(cs))
    ensures UniqueNames(cs) ==> UniqueNames(Pruned(cs))
    decreases |cs|
  {
    if cs != [] {
      PrunedValid(cs[1..]);
      var h := if Current(cs[0].name) then [cs[0]] else [];
      var p, rest := Pruned(cs), Pruned(cs[1..]);
      assert p == h + rest;
      assert forall s :: s in rest ==> s in cs[1..];
      if AllOk(cs) {
        forall i | 0 <= i < |p| ensures StoreOk(p[i]) {
          if i < |h| {
            assert p[i] == cs[0];
          } else {
            assert p[i] == rest[i - |h|];
            assert p[i] in cs[1..];
          }
        }
      }
      if UniqueNames(cs) {
        assert UniqueNames(cs[1..]);
        if h != [] {
          forall j | 0 <= j < |rest| ensures rest[j].name != cs[0].name {
            assert rest[j] in cs[1..];
          }
        }
      }
    }
  }

  lemma PrunedSnoc(a: Caches, x: Store)
    ensures Pruned(a + [x]) == Pruned(a) + (if Current(x.name) then [x] else [])
  {
    PrunedAppend(a, [x]);
    assert [x][1..] == [];
  }

  /** One iteration of activation's cleanup, over caches with distinct names. */
  lemma PruneStep(was: Caches, i: nat)
    requires UniqueNames(was) && i < |was|
    ensures Current(was[i].name) ==> Pruned(was[..i]) + was[i..] == Pruned(was[..i + 1]) + was[i + 1..]
    ensures !Current(was[i].name) ==>
      Delete(Pruned(was[..i]) + was[i..], was[i].name) == Pruned(was[..i + 1]) + was[i + 1..]
  {
    assert was[..i + 1] == was[..i] + [was[i]];
    assert was[i..] == [was[i]] + was[i + 1..];
    PrunedSnoc(was[..i], was[i]);
    if !Current(was[i].name) {
      PruneDropStep(was, i);
    }
  }

  /** A stale cache is the only one of its name among the caches still to visit and those kept. */
  lemma PruneDropStep(was: Caches, i: nat)
    requires UniqueNames(was) && i < |was| && !Current(was[i].name)
    ensures Delete(Pruned(was[..i]) + was[i..], was[i].name) == Pruned(was[..i]) + was[i + 1..]
  {
    var p, x, rest := Pruned(was[..i]), was[i], was[i + 1..];
    PrunedValid(was[..i]);
    forall j | 0 <= j < |p| ensures p[j].name != x.name {
      assert p[j] in was[..i];
      var m :| 0 <= m < i && was[..i][m] == p[j];
      assert was[m] == p[j];
    }
    forall j | 0 <= j < |rest| ensures rest[j].name != x.name {
      assert rest[j] == was[i + 1 + j];
    }
    DeleteOnly(p, x, rest);
    assert was[i..] == [x] + rest;
    assert p + [x] + rest == p + was[i..];
  }

  /** Data attached to a notification; `url` is the page a "view" click opens. */
  datatype ClickData = ClickData(url: Option<string>)

  datatype Action = Action(action: string, title: string, icon: string)

  datatype Notification = Notification(
    title: string, body: string, icon: string, badge: string, tag: string,
    vibrate: seq<nat>, data: ClickData, actions: seq<Action>, requireInteraction: bool)

  /** The JSON a push message carries; any field may be missing. */
  datatype PushData = PushData(
    title: Option<string>, body: Option<string>, tag: Option<string>,
    requireInteraction: bool, data: Option<ClickData>)

  /** `x || fallback` on an optional string: missing and empty strings are falsy. */
  function OrElse(x: Option<string>, fallback: string): (r: string)
    ensures x.Some? && x.value != "" ==> r == x.value
    ensures (x.None? || x.value == "") ==> r == fallback
  {
    if x.Some? && x.value != "" then x.value else fallback
  }

  const PUSH_ACTIONS := [Action("view", "Ver", "/icons/action-view.png"),
                         Action("dismiss", "Dispensar", "/icons/action-dismiss.png")]

  /** The notification a push event shows; a push without data behaves as `{}`. */
  function PushNotification(payload: Option<PushData>): (n: Notification)
    ensures payload.None? ==>
      n == Notification("PDF Organizer", "Nova notificação do PDF Organizer", ICON, BADGE, "general",
                        [200, 100, 200], ClickData(None), PUSH_ACTIONS, false)
    ensures payload.Some? ==>
      && n.title == OrElse(payload.value.title, "PDF Organizer")
      && n.body == OrElse(payload.value.body, "Nova notificação do PDF Organizer")
      && n.tag == OrElse(payload.value.tag, "general")
      && n.requireInteraction == payload.value.requireInteraction
      && n.data == payload.value.data.GetOr(ClickData(None))
    ensures n.icon == ICON && n.badge == BADGE && n.actions == PUSH_ACTIONS && n.vibrate == [200, 100, 200]
    ensures n.title != "" && n.body != "" && n.tag != ""
  {
    var d := payload.GetOr(PushData(None, None, None, false, None));
    Notification(OrElse(d.title, "PDF Organizer"), OrElse(d.body, "Nova notificação do PDF Organizer"),
                 ICON, BADGE, OrElse(d.tag, "general"), [200, 100, 200],
                 d.data.GetOr(ClickData(None)), PUSH_ACTIONS, d.requireInteraction)
  }

  /** The window a notification click opens, if any. */
  function ClickTarget(action: string, data: ClickData): (r: Option<string>)
    ensures r.None? <==> action == "dismiss"
    ensures action == "view" ==> r == Some(OrElse(data.url, "/"))
    ensures action != "view" && action != "dismiss" ==> r == Some("/")
    ensures r.Some? ==> r.value != ""
  {
    if action == "view" then Some(OrElse(data.url, "/"))
    else if action == "dismiss" then None
    else Some("/")
  }

  /** What the API handler does to caches `cs`, ending in `cs2`: paths off the
      allow-list go straight to the network and are never cached; an allow-listed
      hit is answered from the cache at once and starts a background refresh; a
      miss answers the network's response, keeping it in DYNAMIC_CACHE only when
      it is `ok`, or the cached copy, else the 503 offline JSON, when the network throws. */
  predicate ApiAnswer(cs: Caches, req: Request, net: FetchOutcome, reply: Reply, refresh: bool, cs2: Caches) {
    if !ShouldCache(req.path) then reply == PassThrough(net) && !refresh && cs2 == cs
    else if Match(cs, Url(req)).Some? then reply == Respond(Match(cs, Url(req)).value) && refresh && cs2 == cs
    else
      !refresh &&
      match net
      case Resolved(r) => reply == Respond(r) && cs2 == (if Ok(r) then Put(cs, DYNAMIC_CACHE, Url(req), r) else cs)
      case Throws => reply == Respond(ApiFallback(cs, Url(req))) && cs2 == cs
  }

  /** What the static handler does: a cached entry is answered first; a miss
      answers the network's response, keeping it in DYNAMIC_CACHE only when it is
      `ok`, or the offline fallback chain when the network throws. */
  predicate StaticAnswer(cs: Caches, self: string, req: Request, net: FetchOutcome, reply: Reply, cs2: Caches) {
    if Match(cs, Url(req)).Some? then reply == Respond(Match(cs, Url(req)).value) && cs2 == cs
    else
      match net
      case Resolved(r) => reply == Respond(r) && cs2 == (if Ok(r) then Put(cs, DYNAMIC_CACHE, Url(req), r) else cs)
      case Throws => reply == Respond(StaticFallback(cs, self, req)) && cs2 == cs
  }

  /** What the external handler does: the network's response is answered, and
      kept only when `ok` from a CDN or font URL; when the network throws, the
      cached copy is answered or the error passed on, and nothing is cached. */
  predicate ExternalAnswer(cs: Caches, req: Request, net: FetchOutcome, reply: Reply, cs2: Caches) {
    match net
    case Resolved(r) =>
      reply == Respond(r)
      && cs2 == (if Ok(r) && ExternalCacheable(Url(req)) then Put(cs, DYNAMIC_CACHE, Url(req), r) else cs)
    case Throws =>
      cs2 == cs && reply == (if Match(cs, Url(req)).Some? then Respond(Match(cs, Url(req)).value) else NetworkError)
  }

  /** An entry of one of the two pending stores, keyed by `id`. */
  datatype PendingItem =
    | Upload(id: nat, projectId: string, filename: string, formData: string, headers: map<string, string>)
    | Operation(id: nat, kind: string, url: string, verb: string, body: string, headers: map<string, string>)

  /** A request the worker sends while replaying. */
  datatype OutRequest = OutRequest(url: string, verb: string, body: string, headers: map<string, string>)

  function RequestOf(item: PendingItem): OutRequest {
    match item
    case Upload(_, projectId, _, formData, headers) =>
      OutRequest("/api/pdf/projects/" + projectId + "/upload", "POST", formData, headers)
    case Operation(_, _, url, verb, body, headers) => OutRequest(url, verb, body, headers)
  }

  function NoticeOf(item: PendingItem): Notification {
    match item
    case Upload(_, _, filename, _, _) =>
      Notification("Upload Concluído", "Arquivo " + filename + " foi enviado com sucesso!", ICON, BADGE,
                   "upload-success", [], ClickData(None), [], false)
    case Operation(_, kind, _, _, _, _) =>
      Notification("Operação Concluída", kind + " foi processado com sucesso!", ICON, BADGE,
                   "operation-success", [], ClickData(None), [], false)
  }

  predicate UniqueIds(s: seq<PendingItem>) {
    forall i, j :: 0 <= i < j < |s| ==> s[i].id != s[j].id
  }

  /** Removing an entry from a pending store by its key. */
  function RemoveById(s: seq<PendingItem>, id: nat): (r: seq<PendingItem>)
    decreases |s|
  {
    if s == [] then [] else (if s[0].id == id then [] else [s[0]]) + RemoveById(s[1..], id)
  }

  /** Whether replaying item i completed: its fetch resolved and its removal succeeded. */
  predicate Completed(fetched: seq<bool>, removed: seq<bool>, i: int)
    requires 0 <= i < |fetched| && i < |removed|
  {
    fetched[i] && removed[i]
  }

  /** The items a replay leaves in the store, in stored order. */
  function Kept(items: seq<PendingItem>, fetched: seq<bool>, removed: seq<bool>): (r: seq<PendingItem>)
    requires |fetched| == |items| && |removed| == |items|
    decreases |items|
  {
    if items == [] then []
    else
      var n := |items| - 1;
      Kept(items[..n], fetched[..n], removed[..n]) + (if Completed(fetched, removed, n) then [] else [items[n]])
  }

  /** The items a replay completes, in stored order. */
  function Done(items: seq<PendingItem>, fetched: seq<bool>, removed: seq<bool>): (r: seq<PendingItem>)
    requires |fetched| == |items| && |removed| == |items|
    decreases |items|
  {
    if items == [] then []
    else
      var n := |items| - 1;
      Done(items[..n], fetched[..n], removed[..n]) + (if Completed(fetched, removed, n) then [items[n]] else [])
  }

  function Notices(items: seq<PendingItem>): (ns: seq<Notification>)
    ensures |ns| == |items| && forall i :: 0 <= i < |items| ==> ns[i] == NoticeOf(items[i])
  {
    seq(|items|, i requires 0 <= i < |items| => NoticeOf(items[i]))
  }

  function Requests(items: seq<PendingItem>): (rs: seq<OutRequest>)
    ensures |rs| == |items| && forall i :: 0 <= i < |items| ==> rs[i] == RequestOf(items[i])
  {
    seq(|items|, i requires 0 <= i < |items| => RequestOf(items[i]))
  }

  /** No entry of `s` has key `id`. */
  predicate IdFree(s: seq<PendingItem>, id: nat) {
    forall x :: x in s ==> x.id != id
  }

  /** Replaying one more item extends the kept and completed lists by that item's fate. */
  lemma ReplaySnoc(items: seq<PendingItem>, fetched: seq<bool>, removed: seq<bool>, i: nat)
    requires |fetched| == |items| && |removed| == |items| && i < |items|
    ensures Kept(items[..i + 1], fetched[..i + 1], removed[..i + 1])
            == Kept(items[..i], fetched[..i], removed[..i]) + (if Completed(fetched, removed, i) then [] else [items[i]])
    ensures Done(items[..i + 1], fetched[..i + 1], removed[..i + 1])
            == Done(items[..i], fetched[..i], removed[..i]) + (if Completed(fetched, removed, i) then [items[i]] else [])
  {
    assert items[..i + 1][..i] == items[..i];
    assert fetched[..i + 1][..i] == fetched[..i] && removed[..i + 1][..i] == removed[..i];
  }

  /** Kept and completed items come from the store, and keep its keys distinct. */
  lemma KeptDoneFrom(items: seq<PendingItem>, fetched: seq<bool>, removed: seq<bool>)
    requires |fetched| == |items| && |removed| == |items|
    ensures forall x :: x in Kept(items, fetched, removed) ==> x in items
    ensures forall x :: x in Done(items, fetched, removed) ==> x in items
    ensures UniqueIds(items) ==> UniqueIds(Kept(items, fetched, removed))
  {
    KeptFrom(items, fetched, removed);
    DoneFrom(items, fetched, removed);
    if UniqueIds(items) {
      KeptUnique(items, fetched, removed);
    }
  }

  lemma {:induction false} KeptFrom(items: seq<PendingItem>, fetched: seq<bool>, removed: seq<bool>)
    requires |fetched| == |items| && |removed| == |items|
    ensures forall x :: x in Kept(items, fetched, removed) ==> x in items
    decreases |items|
  {
    if items != [] {
      var n := |items| - 1;
      var p := items[..n];
      KeptFrom(p, fetched[..n], removed[..n]);
      assert items == p + [items[n]];
    }
  }

  lemma {:induction false} DoneFrom(items: seq<PendingItem>, fetched: seq<bool>, removed: seq<bool>)
    requires |fetched| == |items| && |removed| == |items|
    ensures forall x :: x in Done(items, fetched, removed) ==> x in items
    decreases |items|
  {
    if items != [] {
      var n := |items| - 1;
      var p := items[..n];
      DoneFrom(p, fetched[..n], removed[..n]);
      assert items == p + [items[n]];
    }
  }

  lemma {:induction false} KeptUnique(items: seq<PendingItem>, fetched: seq<bool>, removed: seq<bool>)
    requires |fetched| == |items| && |removed| == |items|
    requires UniqueIds(items)
    ensures UniqueIds(Kept(items, fetched, removed))
    decreases |items|
  {
    if items != [] {
      var n := |items| - 1;
      var p := items[..n];
      assert UniqueIds(p);
      KeptUnique(p, fetched[..n], removed[..n]);
      if !Completed(fetched, removed, n) {
        var k := Kept(p, fetched[..n], removed[..n]);
        KeptFrom(p, fetched[..n], removed[..n]);
        var k2 := k + [items[n]];
        forall i, j | 0 <= i < j < |k2| ensures k2[i].id != k2[j].id {
          if j == |k| {
            assert k2[i] == k[i] && k[i] in p;
            var m :| 0 <= m < n && p[m] == k[i];
            assert items[m] == k[i];
          } else {
            assert k2[i] == k[i] && k2[j] == k[j];
          }
        }
      }
    }
  }

  /** An item stays in the store exactly when its fetch threw or its removal failed. */
  lemma {:induction false} KeptExactly(items: seq<PendingItem>, fetched: seq<bool>, removed: seq<bool>)
    requires |fetched| == |items| && |removed| == |items|
    requires UniqueIds(items)
    ensures forall i :: 0 <= i < |items| ==>
      (items[i] in Kept(items, fetched, removed) <==> !Completed(fetched, removed, i))
    decreases |items|
  {
    if items != [] {
      var n := |items| - 1;
      var p, f, r := items[..n], fetched[..n], removed[..n];
      assert UniqueIds(p);
      KeptExactly(p, f, r);
      KeptDoneFrom(p, f, r);
      var k := Kept(p, f, r);
      assert items[n] !in p;
      forall i | 0 <= i < n
        ensures items[i] in Kept(items, fetched, removed) <==> !Completed(fetched, removed, i)
      {
        assert p[i] == items[i] && items[i] != items[n];
      }
    }
  }

  /** An item is notified exactly when its fetch resolved and its removal succeeded. */
  lemma {:induction false} DoneExactly(items: seq<PendingItem>, fetched: seq<bool>, removed: seq<bool>)
    requires |fetched| == |items| && |removed| == |items|
    requires UniqueIds(items)
    ensures forall i :: 0 <= i < |items| ==>
      (items[i] in Done(items, fetched, removed) <==> Completed(fetched, removed, i))
    decreases |items|
  {
    if items != [] {
      var n := |items| - 1;
      var p, f, r := items[..n], fetched[..n], removed[..n];
      assert UniqueIds(p);
      DoneExactly(p, f, r);
      KeptDoneFrom(p, f, r);
      assert items[n] !in p;
      forall i | 0 <= i < n
        ensures items[i] in Done(items, fetched, removed) <==> Completed(fetched, removed, i)
      {
        assert p[i] == items[i] && items[i] != items[n];
      }
    }
  }

  /** A replay loses and duplicates nothing: kept and completed items together
      are exactly the store's items. */
  lemma {:induction false} ReplayPartition(items: seq<PendingItem>, fetched: seq<bool>, removed: seq<bool>)
    requires |fetched| == |items| && |removed| == |items|
    ensures multiset(Kept(items, fetched, removed)) + multiset(Done(items, fetched, removed)) == multiset(items)
    decreases |items|
  {
    if items != [] {
      var n := |items| - 1;
      ReplayPartition(items[..n], fetched[..n], removed[..n]);
      assert items == items[..n] + [items[n]];
    }
  }

  lemma {:induction false} RemoveByIdAbsent(s: seq<PendingItem>, id: nat)
    requires IdFree(s, id)
    ensures RemoveById(s, id) == s
    decreases |s|
  {
    if s != [] {
      assert s[1..] == s[1..] && forall x :: x in s[1..] ==> x in s;
      RemoveByIdAbsent(s[1..], id);
      assert s == [s[0]] + s[1..];
    }
  }

  /** Removing by key an entry whose key occurs once removes just that entry. */
  lemma {:induction false} RemoveOnly(a: seq<PendingItem>, x: PendingItem, b: seq<PendingItem>)
    requires IdFree(a, x.id) && IdFree(b, x.id)
    ensures RemoveById(a + [x] + b, x.id) == a + b
    decreases |a|
  {
    var s := a + [x] + b;
    if a == [] {
      assert s[0] == x && s[1..] == b;
      RemoveByIdAbsent(b, x.id);
    } else {
      assert s[0] == a[0] && s[1..] == a[1..] + [x] + b;
      assert a[0] in a;
      assert IdFree(a[1..], x.id) by {
        forall y | y in a[1..] ensures y.id != x.id {
          assert y in a;
        }
      }
      RemoveOnly(a[1..], x, b);
      assert a + b == [a[0]] + (a[1..] + b);
    }
  }

  /** Removing item i by its key from the store as a replay leaves it before step i. */
  lemma RemoveStep(items: seq<PendingItem>, fetched: seq<bool>, removed: seq<bool>, i: nat)
    requires |fetched| == |items| && |removed| == |items| && i < |items|
    requires UniqueIds(items)
    ensures RemoveById(Kept(items[..i], fetched[..i], removed[..i]) + items[i..], items[i].id)
            == Kept(items[..i], fetched[..i], removed[..i]) + items[i + 1..]
  {
    var k := Kept(items[..i], fetched[..i], removed[..i]);
    var x, rest := items[i], items[i + 1..];
    KeptDoneFrom(items[..i], fetched[..i], removed[..i]);
    forall y | y in k ensures y.id != x.id {
      var j :| 0 <= j < i && items[..i][j] == y;
    }
    forall y | y in rest ensures y.id != x.id {
      var j :| 0 <= j < |rest| && rest[j] == y;
      assert items[i + 1 + j] == y;
    }
    assert items[i..] == [x] + rest;
    RemoveOnly(k, x, rest);
    assert k + [x] + rest == k + ([x] + rest);
  }

  lemma RequestsNoticesSnoc(a: seq<PendingItem>, x: PendingItem)
    ensures Requests(a + [x]) == Requests(a) + [RequestOf(x)]
    ensures Notices(a + [x]) == Notices(a) + [NoticeOf(x)]
  {
  }

  /** The replay loop's invariant after the first `i` items. */
  predicate ReplayInv(items: seq<PendingItem>, fetched: seq<bool>, removed: seq<bool>, i: nat,
                      store: seq<PendingItem>, sent: seq<OutRequest>, shown: seq<Notification>)
    requires |fetched| == |items| && |removed| == |items| && i <= |items|
  {
    && store == Kept(items[..i], fetched[..i], removed[..i]) + items[i..]
    && sent == Requests(items[..i])
    && shown == Notices(Done(items[..i], fetched[..i], removed[..i]))
  }

  /** The replay loop's invariant is kept by one more iteration. */
  lemma ReplayStep(items: seq<PendingItem>, fetched: seq<bool>, removed: seq<bool>, i: nat,
                   store: seq<PendingItem>, sent: seq<OutRequest>, shown: seq<Notification>)
    requires |fetched| == |items| && |removed| == |items| && i < |items|
    requires UniqueIds(items)
    requires ReplayInv(items, fetched, removed, i, store, sent, shown)
    ensures ReplayInv(items, fetched, removed, i + 1,
                      if fetched[i] && removed[i] then RemoveById(store, items[i].id) else store,
                      sent + [RequestOf(items[i])],
                      if fetched[i] && removed[i] then shown + [NoticeOf(items[i])] else shown)
  {
    var item := items[i];
    ReplaySnoc(items, fetched, removed, i);
    assert items[..i + 1] == items[..i] + [item];
    RequestsNoticesSnoc(items[..i], item);
    RequestsNoticesSnoc(Done(items[..i], fetched[..i], removed[..i]), item);
    ReplayStoreStep(items, fetched, removed, i);
  }

  /** The invariant holds before the first item and gives the result after the last. */
  lemma ReplayEnds(items: seq<PendingItem>, fetched: seq<bool>, removed: seq<bool>,
                   store: seq<PendingItem>, sent: seq<OutRequest>, shown: seq<Notification>)
    requires |fetched| == |items| && |removed| == |items|
    ensures ReplayInv(items, fetched, removed, 0, items, [], [])
    ensures ReplayInv(items, fetched, removed, |items|, store, sent, shown) ==>
      sent == Requests(items) && store == Kept(items, fetched, removed) && shown == Notices(Done(items, fetched, removed))
  {
    assert items[..0] == [] && fetched[..0] == [] && removed[..0] == [];
    assert Requests([]) == [] && Notices([]) == [];
    assert items[..|items|] == items && fetched[..|items|] == fetched && removed[..|items|] == removed;
  }

  /** The store part of one more replay iteration. */
  lemma ReplayStoreStep(items: seq<PendingItem>, fetched: seq<bool>, removed: seq<bool>, i: nat)
    requires |fetched| == |items| && |removed| == |items| && i < |items|
    requires UniqueIds(items)
    ensures var store := Kept(items[..i], fetched[..i], removed[..i]) + items[i..];
      (if fetched[i] && removed[i] then RemoveById(store, items[i].id) else store)
      == Kept(items[..i + 1], fetched[..i + 1], removed[..i + 1]) + items[i + 1..]
  {
    var item, rest := items[i], items[i + 1..];
    var k := Kept(items[..i], fetched[..i], removed[..i]);
    var k1 := Kept(items[..i + 1], fetched[..i + 1], removed[..i + 1]);
    ReplaySnoc(items, fetched, removed, i);
    if Completed(fetched, removed, i) {
      assert k1 == k;
      RemoveStep(items, fetched, removed, i);
    } else {
      assert k1 == k + [item];
      assert items[i..] == [item] + rest;
      assert k + ([item] + rest) == (k + [item]) + rest;
    }
  }

  /** One sync drain: every pending item is sent in stored order; an item whose
      fetch resolves (whatever its status) is removed by id, and once that removal
      succeeds it is notified; a throwing item stays and the loop goes on.
      `fetched[i]` and `removed[i]` are the outcomes for item i. */
  method Replay(items: seq<PendingItem>, fetched: seq<bool>, removed: seq<bool>)
    returns (store: seq<PendingItem>, sent: seq<OutRequest>, shown: seq<Notification>)
    requires |fetched| == |items| && |removed| == |items|
    requires UniqueIds(items)
    ensures sent == Requests(items)
    ensures store == Kept(items, fetched, removed)
    ensures shown == Notices(Done(items, fetched, removed))
  {
    store, sent, shown := items, [], [];
    var i := 0;
    ReplayEnds(items, fetched, removed, store, sent, shown);
    while i < |items|
      invariant 0 <= i <= |items|
      invariant ReplayInv(items, fetched, removed, i, store, sent, shown)
    {
      var item := items[i];
      ReplayStep(items, fetched, removed, i, store, sent, shown);
      sent := sent + [RequestOf(item)];
      store := if fetched[i] && removed[i] then RemoveById(store, item.id) else store;
      shown := if fetched[i] && removed[i] then shown + [NoticeOf(item)] else shown;
      i := i + 1;
    }
    ReplayEnds(items, fetched, removed, store, sent, shown);
  }

  /** The drain a sync tag starts, if any. */
  datatype Queue = Uploads | Operations

  function SyncTarget(tag: string): (q: Option<Queue>)
    ensures q == Some(Uploads) <==> tag == "pdf-upload"
    ensures q == Some(Operations) <==> tag == "pdf-operations"
  {
    if tag == "pdf-upload" then Some(Uploads) else if tag == "pdf-operations" then Some(Operations) else None
  }

  /** The worker's state across events: the caches, the two pending stores, and
      what it has done to the outside world. */
  class Worker {
    const origin: string
    var caches: Caches
    var pendingUploads: seq<PendingItem>
    var pendingOps: seq<PendingItem>
    var sent: seq<OutRequest>
    var notifications: seq<Notification>
    var openedWindows: seq<string>
    var skippedWaiting: bool
    var claimed: bool

    ghost predicate Valid()
      reads this
    {
      && AllOk(caches) && UniqueNames(caches)
      && UniqueIds(pendingUploads) && UniqueIds(pendingOps)
      && (forall i :: 0 <= i < |pendingUploads| ==> pendingUploads[i].Upload?)
      && (forall i :: 0 <= i < |pendingOps| ==> pendingOps[i].Operation?)
    }

    constructor (origin: string, caches: Caches, uploads: seq<PendingItem>, ops: seq<PendingItem>)
      requires AllOk(caches) && UniqueNames(caches) && UniqueIds(uploads) && UniqueIds(ops)
      requires forall i :: 0 <= i < |uploads| ==> uploads[i].Upload?
      requires forall i :: 0 <= i < |ops| ==> ops[i].Operation?
      ensures Valid()
      ensures this.origin == origin && this.caches == caches
      ensures pendingUploads == uploads && pendingOps == ops
      ensures sent == [] && notifications == [] && openedWindows == []
      ensures !skippedWaiting && !claimed
    {
      this.origin := origin;
      this.caches := caches;
      pendingUploads, pendingOps := uploads, ops;
      sent, notifications, openedWindows := [], [], [];
      skippedWaiting, claimed := false, false;
    }

    /** The install handler: open STATIC_CACHE, pre-cache the app shell atomically,
        and skip waiting only when that succeeded; a failure is swallowed.
        `outcomes[i]` is what fetching STATIC_FILES[i] gave. */
    method Install(outcomes: seq<FetchOutcome>)
      requires Valid() && |outcomes| == |STATIC_FILES|
      modifies this`caches, this`skippedWaiting
      ensures Valid()
      ensures AllFetched(outcomes) ==>
        caches == PutAll(Open(old(caches), STATIC_CACHE), STATIC_CACHE, StaticKeys(origin), Responses(outcomes))
      ensures !AllFetched(outcomes) ==> caches == Open(old(caches), STATIC_CACHE)
      ensures skippedWaiting == (old(skippedWaiting) || AllFetched(outcomes))
    {
      OpenKeeps(caches, STATIC_CACHE);
      caches := Open(caches, STATIC_CACHE);
      if AllFetched(outcomes) {
        PutAllKeeps(caches, STATIC_CACHE, StaticKeys(origin), Responses(outcomes));
        caches := PutAll(caches, STATIC_CACHE, StaticKeys(origin), Responses(outcomes));
        skippedWaiting := true;
      }
    }

    /** The activate handler: delete every cache that is not of the current
        generation, then claim the open clients. */
    method Activate()
      requires Valid()
      modifies this`caches, this`claimed
      ensures Valid()
      ensures caches == Pruned(old(caches))
      ensures claimed
    {
      var names := Names(caches);
      ghost var was := caches;
      var i := 0;
      while i < |names|
        invariant 0 <= i <= |names|
        invariant caches == Pruned(was[..i]) + was[i..]
      {
        PruneStep(was, i);
        if !Current(names[i]) {
          caches := Delete(caches, names[i]);
        }
        i := i + 1;
      }
      assert was[..i] == was && was[i..] == [];
      PrunedValid(was);
      claimed := true;
    }

    /** The fetch listener: route the request and run its handler. `net` is what
        the handler's own fetch gives; `refresh` says a background refresh was
        started (see BackgroundRefresh). */
    method HandleFetch(req: Request, net: FetchOutcome) returns (reply: Reply, refresh: bool)
      requires Valid()
      modifies this`caches
      ensures Valid()
      ensures RouteOf(req, origin) == Skip ==> reply == NotIntercepted && caches == old(caches) && !refresh
      ensures RouteOf(req, origin) == Api ==> ApiAnswer(old(caches), req, net, reply, refresh, caches)
      ensures RouteOf(req, origin) == Static ==> StaticAnswer(old(caches), origin, req, net, reply, caches) && !refresh
      ensures RouteOf(req, origin) == External ==> ExternalAnswer(old(caches), req, net, reply, caches) && !refresh
      ensures RouteOf(req, origin) == Static && net.Throws? ==> reply.Respond? && Ok(reply.resp)
    {
      refresh := false;
      match RouteOf(req, origin)
      case Skip => reply := NotIntercepted;
      case Api => reply, refresh := HandleApiRequest(req, net);
      case Static => reply := HandleStaticRequest(req, net);
      case External => reply := HandleExternalRequest(req, net);
    }

    /** Cache-first for the allow-listed API paths, straight to the network for the rest. */
    method HandleApiRequest(req: Request, net: FetchOutcome) returns (reply: Reply, refresh: bool)
      requires Valid()
      modifies this`caches
      ensures Valid()
      ensures ApiAnswer(old(caches), req, net, reply, refresh, caches)
    {
      refresh := false;
      if !ShouldCache(req.path) {
        reply := PassThrough(net);
        return;
      }
      var key := Url(req);
      var cached := Match(caches, key);
      if cached.Some? {
        reply, refresh := Respond(cached.value), true;
        return;
      }
      match net {
        case Resolved(r) =>
          if Ok(r) {
            PutKeepsAllOk(caches, DYNAMIC_CACHE, key, r);
            PutKeepsUniqueNames(caches, DYNAMIC_CACHE, key, r);
            caches := Put(caches, DYNAMIC_CACHE, key, r);
          }
          reply := Respond(r);
        case Throws =>
          reply := Respond(ApiFallback(caches, key));
      }
    }

    /** The fire-and-forget refresh started on an API cache hit: an `ok` answer
        overwrites the DYNAMIC_CACHE entry; anything else is ignored. */
    method BackgroundRefresh(req: Request, net: FetchOutcome)
      requires Valid()
      modifies this`caches
      ensures Valid()
      ensures caches == if net.Resolved? && Ok(net.resp) then Put(old(caches), DYNAMIC_CACHE, Url(req), net.resp)
                        else old(caches)
    {
      if net.Resolved? && Ok(net.resp) {
        PutKeepsAllOk(caches, DYNAMIC_CACHE, Url(req), net.resp);
        PutKeepsUniqueNames(caches, DYNAMIC_CACHE, Url(req), net.resp);
        caches := Put(caches, DYNAMIC_CACHE, Url(req), net.resp);
      }
    }

    /** Cache-first for same-origin pages and assets, with the offline fallback chain. */
    method HandleStaticRequest(req: Request, net: FetchOutcome) returns (reply: Reply)
      requires Valid()
      modifies this`caches
      ensures Valid()
      ensures StaticAnswer(old(caches), origin, req, net, reply, caches)
      ensures net.Throws? ==> reply.Respond? && Ok(reply.resp)
    {
      var key := Url(req);
      var cached := Match(caches, key);
      if cached.Some? {
        reply := Respond(cached.value);
        StaticFallbackOk(caches, origin, req);
        return;
      }
      match net {
        case Resolved(r) =>
          if Ok(r) {
            PutKeepsAllOk(caches, DYNAMIC_CACHE, key, r);
            PutKeepsUniqueNames(caches, DYNAMIC_CACHE, key, r);
            caches := Put(caches, DYNAMIC_CACHE, key, r);
          }
          reply := Respond(r);
        case Throws =>
          reply := Respond(StaticFallback(caches, origin, req));
          StaticFallbackOk(caches, origin, req);
      }
    }

    /** Network-first for cross-origin requests: CDN and font responses are kept;
        on failure the cached copy is served or the error is rethrown. */
    method HandleExternalRequest(req: Request, net: FetchOutcome) returns (reply: Reply)
      requires Valid()
      modifies this`caches
      ensures Valid()
      ensures ExternalAnswer(old(caches), req, net, reply, caches)
    {
      var key := Url(req);
      match net {
        case Resolved(r) =>
          if Ok(r) && ExternalCacheable(key) {
            PutKeepsAllOk(caches, DYNAMIC_CACHE, key, r);
            PutKeepsUniqueNames(caches, DYNAMIC_CACHE, key, r);
            caches := Put(caches, DYNAMIC_CACHE, key, r);
          }
          reply := Respond(r);
        case Throws =>
          var cached := Match(caches, key);
          reply := if cached.Some? then Respond(cached.value) else NetworkError;
      }
    }

    /** syncPendingUploads: replay the pending uploads. */
    method SyncPendingUploads(fetched: seq<bool>, removed: seq<bool>)
      requires Valid() && |fetched| == |pendingUploads| && |removed| == |pendingUploads|
      modifies this`pendingUploads, this`sent, this`notifications
      ensures Valid()
      ensures sent == old(sent) + Requests(old(pendingUploads))
      ensures pendingUploads == Kept(old(pendingUploads), fetched, removed)
      ensures notifications == old(notifications) + Notices(Done(old(pendingUploads), fetched, removed))
    {
      var store, out, shown := Replay(pendingUploads, fetched, removed);
      KeptDoneFrom(pendingUploads, fetched, removed);
      forall x | x in store ensures x.Upload? {
        var j :| 0 <= j < |pendingUploads| && pendingUploads[j] == x;
      }
      pendingUploads, sent, notifications := store, sent + out, notifications + shown;
    }

    /** syncPendingOperations: replay the pending operations. */
    method SyncPendingOperations(fetched: seq<bool>, removed: seq<bool>)
      requires Valid() && |fetched| == |pendingOps| && |removed| == |pendingOps|
      modifies this`pendingOps, this`sent, this`notifications
      ensures Valid()
      ensures sent == old(sent) + Requests(old(pendingOps))
      ensures pendingOps == Kept(old(pendingOps), fetched, removed)
      ensures notifications == old(notifications) + Notices(Done(old(pendingOps), fetched, removed))
    {
      var store, out, shown := Replay(pendingOps, fetched, removed);
      KeptDoneFrom(pendingOps, fetched, removed);
      forall x | x in store ensures x.Operation? {
        var j :| 0 <= j < |pendingOps| && pendingOps[j] == x;
      }
      pendingOps, sent, notifications := store, sent + out, notifications + shown;
    }

    /** The sync listener: only the two known tags start a drain. */
    method Sync(tag: string, fetched: seq<bool>, removed: seq<bool>)
      requires Valid()
      requires tag == "pdf-upload" ==> |fetched| == |pendingUploads| && |removed| == |pendingUploads|
      requires tag == "pdf-operations" ==> |fetched| == |pendingOps| && |removed| == |pendingOps|
      modifies this`pendingUploads, this`pendingOps, this`sent, this`notifications
      ensures Valid()
      ensures SyncTarget(tag).None? ==>
        sent == old(sent) && notifications == old(notifications)
        && pendingUploads == old(pendingUploads) && pendingOps == old(pendingOps)
      ensures SyncTarget(tag) == Some(Uploads) ==>
        pendingUploads == Kept(old(pendingUploads), fetched, removed) && pendingOps == old(pendingOps)
        && sent == old(sent) + Requests(old(pendingUploads))
        && notifications == old(notifications) + Notices(Done(old(pendingUploads), fetched, removed))
      ensures SyncTarget(tag) == Some(Operations) ==>
        pendingOps == Kept(old(pendingOps), fetched, removed) && pendingUploads == old(pendingUploads)
        && sent == old(sent) + Requests(old(pendingOps))
        && notifications == old(notifications) + Notices(Done(old(pendingOps), fetched, removed))
    {
      match SyncTarget(tag)
      case Some(Uploads) => SyncPendingUploads(fetched, removed);
      case Some(Operations) => SyncPendingOperations(fetched, removed);
      case None =>
    }

    /** The push listener: show the notification with defaults filled in. */
    method Push(payload: Option<PushData>)
      modifies this`notifications
      ensures notifications == old(notifications) + [PushNotification(payload)]
    {
      notifications := notifications + [PushNotification(payload)];
    }

    /** The notificationclick listener. */
    method Click(action: string, data: ClickData)
      modifies this`openedWindows
      ensures openedWindows == old(openedWindows) + match ClickTarget(action, data)
                                                    case Some(u) => [u]
                                                    case None => []
    {
      var target := ClickTarget(action, data);
      if target.Some? {
        openedWindows := openedWindows + [target.value];
      }
    }
  }
}
