/** The browser's Cache Storage as the service worker sees it: named caches in
    creation order, each a map from request URL to the stored response. */
module CacheStore {
  import opened Wrappers

  /** An HTTP response: its status, its Content-Type and its body text. */
  datatype Response = Response(status: int, contentType: string, body: string)

  /** `response.ok`: the status is in the range 200-299. */
  predicate Ok(r: Response) {
    200 <= r.status <= 299
  }

  datatype Store = Store(name: string, entries: map<string, Response>)

  /** All caches, in the order they were first opened. */
  type Caches = seq<Store>

  function Names(cs: Caches): (ns: seq<string>)
    ensures |ns| == |cs| && forall i :: 0 <= i < |cs| ==> ns[i] == cs[i].name
  {
    seq(|cs|, i requires 0 <= i < |cs| => cs[i].name)
  }

  /** No two caches share a name (`caches.open` reuses an existing cache). */
  predicate UniqueNames(cs: Caches) {
    forall i, j :: 0 <= i < j < |cs| ==> cs[i].name != cs[j].name
  }

  /** Every response the cache holds is an `ok` one. */
  predicate StoreOk(s: Store) {
    forall k :: k in s.entries ==> Ok(s.entries[k])
  }

  /** Every stored response is an `ok` one. */
  predicate AllOk(cs: Caches) {
    forall i :: 0 <= i < |cs| ==> StoreOk(cs[i])
  }

  /** The position of the cache called `name`, if it exists. */
  function IndexOf(cs: Caches, name: string): (r: Option<nat>)
    ensures r.Some? ==> r.value < |cs| && cs[r.value].name == name
    ensures r.Some? ==> forall j :: 0 <= j < r.value ==> cs[j].name != name
    ensures r.None? ==> forall j :: 0 <= j < |cs| ==> cs[j].name != name
    decreases |cs|
  {
    if cs == [] then None
    else if cs[0].name == name then Some(0)
    else match IndexOf(cs[1..], name)
      case None => None
      case Some(j) => Some(j + 1)
  }

  /** `caches.open(name)`: the named cache exists afterwards; a missing one is
      created empty, after all existing caches. */
  function Open(cs: Caches, name: string): (r: Caches)
    ensures IndexOf(cs, name).Some? ==> r == cs
    ensures IndexOf(cs, name).None? ==> r == cs + [Store(name, map[])]
  {
    if IndexOf(cs, name).Some? then cs else cs + [Store(name, map[])]
  }

  /** `(await caches.open(name)).put(key, resp)`. */
  function Put(cs: Caches, name: string, key: string, resp: Response): Caches {
    match IndexOf(cs, name)
    case Some(i) => cs[i := Store(name, cs[i].entries[key := resp])]
    case None => cs + [Store(name, map[key := resp])]
  }

  /** `caches.match(key)`: the entry of the first cache, in creation order, that holds the key. */
  function Match(cs: Caches, key: string): (r: Option<Response>)
    ensures r.Some? <==> exists i :: 0 <= i < |cs| && key in cs[i].entries
    ensures r.Some? ==> exists i :: 0 <= i < |cs| && key in cs[i].entries && cs[i].entries[key] == r.value
                                   && forall j :: 0 <= j < i ==> key !in cs[j].entries
    decreases |cs|
  {
    if cs == [] then None
    else if key in cs[0].entries then Some(cs[0].entries[key])
    else
      var r := Match(cs[1..], key);
      assert forall i :: 1 <= i < |cs| ==> cs[i] == cs[1..][i - 1];
      if r.Some? then
        var i :| 0 <= i < |cs[1..]| && key in cs[1..][i].entries && cs[1..][i].entries[key] == r.value
                 && forall j :: 0 <= j < i ==> key !in cs[1..][j].entries;
        assert forall j :: 0 <= j < i + 1 ==> key !in cs[j].entries;
        r
      else r
  }

  /** `caches.delete(name)`. */
  function Delete(cs: Caches, name: string): (r: Caches)
    decreases |cs|
  {
    if cs == [] then []
    else if cs[0].name == name then Delete(cs[1..], name)
    else [cs[0]] + Delete(cs[1..], name)
  }

  /** Opening a cache keeps the invariants, and the cache exists afterwards. */
  lemma OpenKeeps(cs: Caches, name: string)
    requires AllOk(cs) && UniqueNames(cs)
    ensures AllOk(Open(cs, name)) && UniqueNames(Open(cs, name))
    ensures IndexOf(Open(cs, name), name).Some?
  {
    if IndexOf(cs, name).None? {
      var r := Open(cs, name);
      assert r[|cs|].name == name;
      assert forall j :: 0 <= j < |cs| ==> r[j] == cs[j];
    }
  }

  /** No cache of `name` among `cs`. */
  predicate NameFree(cs: Caches, name: string) {
    forall i :: 0 <= i < |cs| ==> cs[i].name != name
  }

  lemma {:induction false} DeleteNone(cs: Caches, name: string)
    requires NameFree(cs, name)
    ensures Delete(cs, name) == cs
    decreases |cs|
  {
    if cs != [] {
      DeleteNone(cs[1..], name);
    }
  }

  /** Deleting a cache that occurs exactly once removes just that cache. */
  lemma {:induction false} DeleteOnly(a: Caches, s: Store, b: Caches)
    requires NameFree(a, s.name) && NameFree(b, s.name)
    ensures Delete(a + [s] + b, s.name) == a + b
    decreases |a|
  {
    if a == [] {
      assert a + [s] + b == [s] + b;
      assert ([s] + b)[1..] == b;
      DeleteNone(b, s.name);
    } else {
      assert (a + [s] + b)[0] == a[0];
      assert (a + [s] + b)[1..] == a[1..] + [s] + b;
      DeleteOnly(a[1..], s, b);
      assert a + b == [a[0]] + (a[1..] + b);
    }
  }

  /** Writing an `ok` response keeps every stored response `ok`. */
  lemma PutKeepsAllOk(cs: Caches, name: string, key: string, resp: Response)
    requires AllOk(cs) && Ok(resp)
    ensures AllOk(Put(cs, name, key, resp))
  {
  }

  /** Writing never creates a second cache of the same name. */
  lemma PutKeepsUniqueNames(cs: Caches, name: string, key: string, resp: Response)
    requires UniqueNames(cs)
    ensures UniqueNames(Put(cs, name, key, resp))
    ensures Names(Put(cs, name, key, resp)) == if IndexOf(cs, name).Some? then Names(cs) else Names(cs) + [name]
  {
  }

  /** After a write under `key`, a lookup of `key` hits; it returns the written
      response unless a cache opened earlier already holds the key; the lookup of
      every other key is unchanged. */
  lemma MatchAfterPut(cs: Caches, name: string, key: string, resp: Response, other: string)
    ensures Match(Put(cs, name, key, resp), key).Some?
    ensures Match(cs, key).None? ==> Match(Put(cs, name, key, resp), key) == Some(resp)
    ensures other != key ==> Match(Put(cs, name, key, resp), other) == Match(cs, other)
  {
    MatchPutSame(cs, name, key, resp);
    if other != key {
      MatchPutOther(cs, name, key, resp, other);
    }
  }

  lemma {:induction false} MatchPutSame(cs: Caches, name: string, key: string, resp: Response)
    ensures Match(Put(cs, name, key, resp), key).Some?
    ensures Match(cs, key).None? ==> Match(Put(cs, name, key, resp), key) == Some(resp)
    decreases |cs|
  {
    var r := Put(cs, name, key, resp);
    if cs != [] {
      if cs[0].name == name {
        assert key in r[0].entries;
      } else {
        MatchPutSame(cs[1..], name, key, resp);
        assert IndexOf(cs, name).Some? <==> IndexOf(cs[1..], name).Some?;
        assert r[0] == cs[0];
        assert r[1..] == Put(cs[1..], name, key, resp);
      }
    }
  }

  lemma {:induction false} MatchPutOther(cs: Caches, name: string, key: string, resp: Response, other: string)
    requires other != key
    ensures Match(Put(cs, name, key, resp), other) == Match(cs, other)
    decreases |cs|
  {
    var r := Put(cs, name, key, resp);
    if cs != [] {
      if cs[0].name == name {
        assert r[1..] == cs[1..];
        assert r[0].entries == cs[0].entries[key := resp];
      } else {
        MatchPutOther(cs[1..], name, key, resp, other);
        assert IndexOf(cs, name).Some? <==> IndexOf(cs[1..], name).Some?;
        assert r[0] == cs[0];
        assert r[1..] == Put(cs[1..], name, key, resp);
      }
    } else {
      assert r == [Store(name, map[key := resp])];
    }
  }

  /** Removing a cache keeps the other caches, in their order. */
  lemma {:induction false} DeleteKeepsOthers(cs: Caches, name: string, other: string)
    requires other != name
    ensures IndexOf(Delete(cs, name), other).Some? <==> IndexOf(cs, other).Some?
    ensures IndexOf(cs, other).Some? ==>
      Delete(cs, name)[IndexOf(Delete(cs, name), other).value] == cs[IndexOf(cs, other).value]
    decreases |cs|
  {
    if cs != [] {
      DeleteKeepsOthers(cs[1..], name, other);
    }
  }
}
