/** The middleware and bustCache as code, one method per stretch between awaits. */
module ResponseCache {
  import opened Wrappers
  import opened QueryKey
  import Decimal
  import H = HttpCache

  /** The ordered parameters joined one by one, as the array pipeline does. */
  method BuildQueryString(q: Query) returns (qs: string)
    ensures qs == QueryString(q)
  {
    var sorted := Sort(q);
    qs := "";
    var i := |sorted|;
    while i > 0
      invariant 0 <= i <= |sorted|
      invariant qs == JoinParameters(sorted[i..])
    {
      i := i - 1;
      assert sorted[i..][0] == sorted[i] && sorted[i..][1..] == sorted[i + 1..];
      qs := if i + 1 == |sorted| then Parameter(sorted[i]) else Parameter(sorted[i]) + ['&'] + qs;
    }
  }

  class Cache {
    var store: map<string, H.Value>

    constructor ()
      ensures store == map[]
    {
      store := map[];
    }

    // cacheService.get, which answers null when the store fails.
    method Get(key: string, lost: bool) returns (v: Option<H.Value>)
      ensures v == if key in store && !lost then Some(store[key]) else None
    {
      v := if key in store && !lost then Some(store[key]) else None;
    }

    // cacheService.set, which drops the value when the store fails.
    method Set(key: string, value: H.Value, dropped: bool)
      modifies this
      ensures store == if dropped then old(store) else old(store)[key := value]
    {
      if !dropped { store := store[key := value]; }
    }

    method GetVersion(p: H.Pair, lost: bool) returns (v: nat)
      ensures v == if lost then 0 else H.CurrentVersion(store, p)
    {
      var found := Get(H.VersionKey(p), lost);
      v := if found.Some? && found.value.Version? then found.value.n else 0;
    }

    // bustCache when nothing runs between its get and its set.
    method BustCache(p: H.Pair, lost: bool, dropped: bool)
      modifies this
      ensures var version := if lost then 0 else H.CurrentVersion(old(store), p);
              store == if p.org == "" || p.resource == "" || dropped then old(store)
                       else old(store)[H.VersionKey(p) := H.Version(version + 1)]
    {
      if p.org == "" || p.resource == "" { return; }
      var current := GetVersion(p, lost);
      Set(H.VersionKey(p), H.Version(current + 1), dropped);
    }

    // The version read, then the cache read, of one GET.
    method Find(p: H.Pair, q: Query, lostVersion: bool, lostEntry: bool) returns (key: string, found: Option<H.Body>)
      ensures key == H.ResponseKey(p, if lostVersion then 0 else H.CurrentVersion(store, p), q)
      ensures found == if lostEntry then None else H.Cached(store, key)
    {
      var version := GetVersion(p, lostVersion);
      var qs := BuildQueryString(q);
      key := "cache:GET:" + p.org + ":" + p.resource + ":v" + Decimal.ToString(version) + ":" + qs;
      var cached := Get(key, lostEntry);
      found := if cached.Some? && cached.value.Response? then Some(cached.value.body) else None;
    }

    // res.json on the way out: only successful responses are stored.
    method Finish(key: string, status: int, body: H.Body, dropped: bool)
      modifies this
      ensures store == if 200 <= status < 300 && !dropped then old(store)[key := H.Response(body)] else old(store)
    {
      if 200 <= status < 300 { Set(key, H.Response(body), dropped); }
    }

    // One whole GET, when no other request comes between: a hit leaves the cache alone, and a
    // miss stores the handler's answer under the very key it looked up.
    method Respond(p: H.Pair, q: Query, status: int, body: H.Body, lostVersion: bool, lostEntry: bool, dropped: bool)
      returns (answer: H.Body)
      modifies this
      ensures var key := H.ResponseKey(p, if lostVersion then 0 else H.CurrentVersion(old(store), p), q);
              if !lostEntry && H.Cached(old(store), key).Some? then
                answer == H.Cached(old(store), key).value && store == old(store)
              else
                && answer == body
                && store == if 200 <= status < 300 && !dropped then old(store)[key := H.Response(body)] else old(store)
    {
      var key, found := Find(p, q, lostVersion, lostEntry);
      if found.Some? { return found.value; }
      Finish(key, status, body, dropped);
      return body;
    }
  }
}
