/** The REST response cache: a store with a time to live of 60 seconds in front of the handlers. */
module Cache {
  import opened Model

  const TTL: int := 60

  datatype Request = Request(httpMethod: string, path: string, rawQuery: string)

  datatype Response = Response(status: int, body: string, fromCache: bool)

  /** The key of a request: path, a question mark, query. */
  function Key(r: Request): string { r.path + "?" + r.rawQuery }

  datatype Entry = Entry(body: string, expiresAt: int)

  /** One execution of a handler: from when to when, for which request, with what result. */
  datatype Execution = Execution(started: int, finished: int, request: Request, status: int, body: string)

  /** The body was produced by a handler, with status 200, for a GET with this key, by the given time. */
  predicate ProducedAt(history: seq<Execution>, key: string, body: string, time: int) {
    exists x :: x in history && x.finished == time && x.request.httpMethod == "GET" && Key(x.request) == key &&
      x.status == 200 && x.body == body && body != ""
  }

  class Controller {
    var cache: map<string, Entry>
    ghost var history: seq<Execution>
    ghost var clock: int

    /** Every entry is the work of a handler, and expires 60 seconds after that work was done. */
    ghost predicate Valid()
      reads this
    {
      && (forall key :: key in cache ==> ProducedAt(history, key, cache[key].body, cache[key].expiresAt - TTL))
      && (forall x :: x in history ==> x.started <= x.finished <= clock)
    }

    constructor ()
      ensures Valid() && history == [] && clock == 0
    {
      cache, history, clock := map[], [], 0;
    }

    method FindFromLocalCache(key: string, now: int) returns (value: Option<string>)
      ensures value == if key in cache && now < cache[key].expiresAt then Some(cache[key].body) else None
    {
      if key in cache && now < cache[key].expiresAt {
        return Some(cache[key].body);
      }
      return None;
    }

    /** Memory pressure may remove any entries at any time. */
    method Evict(keys: set<string>)
      requires Valid()
      modifies this`cache
      ensures Valid() && cache == old(cache) - keys
    {
      cache := cache - keys;
    }

    /** The first middleware: a GET whose key is cached is answered at once; every other request goes to its handler. */
    method Receive(r: Request, now: int) returns (response: Option<Response>)
      requires Valid() && clock <= now
      modifies this`clock
      ensures Valid() && clock == now
      ensures response.Some? <==> r.httpMethod == "GET" && Key(r) in cache && now < cache[Key(r)].expiresAt
      ensures response.Some? ==>
                && response.value == Response(200, cache[Key(r)].body, true) && response.value.body != ""
                && exists time :: ProducedAt(history, Key(r), response.value.body, time) && now - 60 < time <= now
    {
      clock := now;
      if r.httpMethod != "GET" {
        return None;
      }
      var key := Key(r);
      var found := FindFromLocalCache(key, now);
      if found.None? {
        return None;
      }
      assert ProducedAt(history, key, found.value, cache[key].expiresAt - TTL);
      return Some(Response(200, found.value, true));
    }

    /** The second middleware, after a handler that ran from started to now answered with status and body; other
        requests may have come and gone meanwhile. stored tells whether Set succeeded. */
    method Finish(r: Request, started: int, now: int, status: int, body: string, stored: bool)
      returns (response: Response)
      requires Valid() && started <= clock <= now
      modifies this
      ensures Valid() && clock == now && response == Response(status, body, false)
      ensures history == old(history) + [Execution(started, now, r, status, body)]
      ensures cache == if r.httpMethod == "GET" && status == 200 && body != "" && stored
                       then old(cache)[Key(r) := Entry(body, now + 60)] else old(cache)
    {
      ghost var before := history;
      clock := now;
      history := history + [Execution(started, now, r, status, body)];
      HistoryGrows(before, history);
      if r.httpMethod == "GET" && status == 200 && |body| > 0 && stored {
        assert Execution(started, now, r, status, body) in history;
        cache := cache[Key(r) := Entry(body, now + TTL)];
      }
      return Response(status, body, false);
    }
  }

  lemma HistoryGrows(before: seq<Execution>, after: seq<Execution>)
    requires before <= after
    ensures forall key, body, time :: ProducedAt(before, key, body, time) ==> ProducedAt(after, key, body, time)
  {
    forall x | x in before ensures x in after {}
  }

  // ---------------------------------------------------------------- keys

  predicate HasQuestionMark(s: string) { '?' in s }

  /** The question marks of a key: the separator, and those of the path and of the query. */
  lemma Marks(a: Request)
    ensures |Key(a)| == |a.path| + 1 + |a.rawQuery| && Key(a)[|a.path|] == '?'
    ensures Key(a)[..|a.path|] == a.path && Key(a)[|a.path| + 1..] == a.rawQuery
    ensures HasQuestionMark(a.path) <==> exists i :: 0 <= i < |a.path| && Key(a)[i] == '?'
    ensures HasQuestionMark(a.rawQuery) <==> exists i :: |a.path| < i < |Key(a)| && Key(a)[i] == '?'
  {
    var k, n := Key(a), |a.path|;
    assert forall i :: 0 <= i < n ==> k[i] == a.path[i];
    assert forall i :: 0 <= i < |a.rawQuery| ==> k[n + 1 + i] == a.rawQuery[i];
    assert forall i :: n < i < |k| ==> k[i] == a.rawQuery[i - n - 1];
  }

  /** Equal keys mean equal path and query when the paths contain no question mark. */
  lemma KeysIdentify(a: Request, b: Request)
    requires Key(a) == Key(b) && !HasQuestionMark(a.path) && !HasQuestionMark(b.path)
    ensures a.path == b.path && a.rawQuery == b.rawQuery
  {
    Marks(a);
    Marks(b);
  }

  /** A second question mark gives another request with the same key. */
  lemma SharedKey(a: Request) returns (b: Request)
    requires HasQuestionMark(a.path) || HasQuestionMark(a.rawQuery)
    ensures Key(b) == Key(a) && b.path != a.path
  {
    var k := Key(a);
    Marks(a);
    var i :| 0 <= i < |k| && k[i] == '?' && i != |a.path|;
    b := Request("GET", k[..i], k[i + 1..]);
    assert Key(b) == k[..i] + [k[i]] + k[i + 1..] == k;
    assert |b.path| != |a.path|;
  }

  /** Without one the key gives path and query back. */
  lemma OwnKey(a: Request, b: Request)
    requires !HasQuestionMark(a.path) && !HasQuestionMark(a.rawQuery) && Key(b) == Key(a)
    ensures b.path == a.path && b.rawQuery == a.rawQuery
  {
    Marks(a);
    Marks(b);
  }

  predicate SameTarget(a: Request, b: Request) { b.path == a.path && b.rawQuery == a.rawQuery }

  /** Exactly the requests without a second question mark have a key of their own: a decoded path or a query that
      contains one shares its key, and so its cached response, with another request. */
  lemma OwnKeyIff(a: Request)
    ensures !HasQuestionMark(a.path) && !HasQuestionMark(a.rawQuery) <==>
            forall b: Request :: Key(b) == Key(a) ==> SameTarget(a, b)
  {
    if HasQuestionMark(a.path) || HasQuestionMark(a.rawQuery) {
      var b := SharedKey(a);
      assert !SameTarget(a, b);
    } else {
      forall b: Request | Key(b) == Key(a) ensures SameTarget(a, b) { OwnKey(a, b); }
    }
  }
}
