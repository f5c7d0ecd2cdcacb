/** Messages through the bounded cache: the body may be remembered, the flags are always read fresh. */
module MessageCache {
  import opened Text
  import opened LruCache

  /** Where a message is: a user's folder and the number it has there. */
  datatype Place = Place(user: string, folder: string, uid: nat)

  /** A parsed message: what its bytes say, and its flags. */
  datatype Message<B> = Message(body: B, flags: set<string>, unread: bool, flagged: bool, answered: bool, draft: bool)

  datatype Result<T> = Found(value: T) | NotFound

  function KeyOf(p: Place): string {
    p.user + ":" + p.folder + ":" + Decimal(p.uid)
  }

  lemma ColonFromTheLeft(u: string, r: string, v: string, t: string)
    requires u + ":" + r == v + ":" + t && |u| < |v|
    ensures ':' in v
  {
    assert (u + ":" + r)[|u|] == ':' && (v + ":" + t)[|u|] == v[|u|];
  }

  lemma ColonFromTheRight(r: string, u: string, t: string, v: string)
    requires r + ":" + u == t + ":" + v && |u| < |v|
    ensures ':' in v
  {
    assert (r + ":" + u)[|r|] == ':' && (t + ":" + v)[|r|] == v[|r| - |t| - 1];
  }

  /** User ids are UUIDs, so the first and the last colon of a key bound the folder name. */
  lemma KeysAreDistinct(p: Place, q: Place)
    requires ':' !in p.user && ':' !in q.user && KeyOf(p) == KeyOf(q)
    ensures p == q
  {
    var s, d, e := KeyOf(p), Decimal(p.uid), Decimal(q.uid);
    var pRest, qRest, pHead, qHead := p.folder + ":" + d, q.folder + ":" + e, p.user + ":" + p.folder, q.user + ":" + q.folder;
    assert s == p.user + ":" + pRest == q.user + ":" + qRest && s == pHead + ":" + d == qHead + ":" + e;
    if |p.user| < |q.user| {
      ColonFromTheLeft(p.user, pRest, q.user, qRest);
    } else if |q.user| < |p.user| {
      ColonFromTheLeft(q.user, qRest, p.user, pRest);
    } else if |d| < |e| {
      ColonFromTheRight(pHead, d, qHead, e);
    } else if |e| < |d| {
      ColonFromTheRight(qHead, e, pHead, d);
    } else {
      assert s[..|p.user|] == p.user && s[..|q.user|] == q.user;
      assert s[|s| - |d|..] == d && s[|s| - |e|..] == e;
      DecimalInjective(p.uid, q.uid);
      assert p.folder == s[|p.user| + 1..|s| - |d| - 1] && q.folder == s[|q.user| + 1..|s| - |e| - 1];
    }
  }

  function WithFlags<B>(body: B, flags: set<string>): Message<B> {
    Message(body, flags, "\\Seen" !in flags, "\\Flagged" in flags, "\\Answered" in flags, "\\Draft" in flags)
  }

  function Refreshed<B>(m: Message<B>, flags: set<string>): Message<B> {
    m.(flags := flags, unread := "\\Seen" !in flags, flagged := "\\Flagged" in flags, answered := "\\Answered" in flags, draft := "\\Draft" in flags)
  }

  /** A message is unread without the flag \Seen; flagged, answered and draft are the flags of those names. */
  lemma FlagsShow<B>(body: B, before: Message<B>, flags: set<string>)
    ensures var m, n := WithFlags(body, flags), Refreshed(before, flags);
      && m.body == body && n.body == before.body && m.flags == n.flags == flags
      && (m.unread <==> !("\\Seen" in flags)) && (n.unread <==> !("\\Seen" in flags))
      && (m.flagged <==> "\\Flagged" in flags) && (n.flagged <==> "\\Flagged" in flags)
      && (m.answered <==> "\\Answered" in flags) && (n.answered <==> "\\Answered" in flags)
      && (m.draft <==> "\\Draft" in flags) && (n.draft <==> "\\Draft" in flags)
  {
  }

  /** What a load without any cache gives: the message as it is on the server now, if it still is there. */
  function Uncached<B>(bodies: Place -> B, now: map<Place, set<string>>, p: Place): Result<Message<B>> {
    if p in now then Found(WithFlags(bodies(p), now[p])) else NotFound
  }

  /** The messages of a list that are there, leaving out the places in `skipped`. */
  function Listed<B>(bodies: Place -> B, now: map<Place, set<string>>, ps: seq<Place>, skipped: set<nat>): seq<Message<B>> {
    if ps == [] then []
    else
      var n := |ps| - 1;
      Listed(bodies, now, ps[..n], skipped)
      + if ps[n] in now && n !in skipped then [WithFlags(bodies(ps[n]), now[ps[n]])] else []
  }

  class Loader<B(!new)> {
    const cache: Lru<string, Message<B>>
    /** What parsing the bytes of a message gives; a place always names the same bytes. */
    const bodies: Place -> B

    ghost predicate Valid()
      reads this, cache
    {
      && cache.Valid() && cache.max == 50
      && forall p: Place {:trigger KeyOf(p)} :: ':' !in p.user && KeyOf(p) in cache.entries ==> cache.entries[KeyOf(p)].body == bodies(p)
    }

    constructor (bodies: Place -> B)
      ensures Valid() && fresh(cache) && this.bodies == bodies
    {
      this.bodies := bodies;
      cache := new Lru(50);
    }

    /** One message; `now` are the messages on the server and their flags. */
    method LoadMessage(now: map<Place, set<string>>, p: Place) returns (r: Result<Message<B>>)
      requires Valid() && ':' !in p.user
      modifies cache
      ensures Valid() && r == Uncached(bodies, now, p)
      ensures r.NotFound? ==> KeyOf(p) !in cache.entries
    {
      var hit := cache.Get(KeyOf(p));
      if hit.Some? {
        if p !in now {
          cache.Delete(KeyOf(p));
          return NotFound;
        }
        return Found(Refreshed(hit.value, now[p]));
      }
      if p !in now {
        return NotFound;
      }
      r := Found(WithFlags(bodies(p), now[p]));
      Keep(p, r.value);
    }

    method Keep(p: Place, m: Message<B>)
      requires Valid() && ':' !in p.user && m.body == bodies(p)
      modifies cache
      ensures Valid() && KeyOf(p) in cache.entries && cache.entries[KeyOf(p)] == m
    {
      cache.Set(KeyOf(p), m);
      forall q: Place | ':' !in q.user && KeyOf(q) in cache.entries
        ensures cache.entries[KeyOf(q)].body == bodies(q)
      {
        if KeyOf(q) == KeyOf(p) {
          KeysAreDistinct(p, q);
        }
      }
    }

    method Invalidate(p: Place)
      requires Valid()
      modifies cache
      ensures Valid() && KeyOf(p) !in cache.entries
    {
      cache.Delete(KeyOf(p));
    }

    /**
     * Several messages. Their flags are read first; `gone` are those expunged before their bytes could be read. Only such
     * messages can be left out, and without any the list is what uncached loads give.
     */
    method LoadMessages(now: map<Place, set<string>>, gone: set<Place>, ps: seq<Place>)
      returns (out: seq<Message<B>>, ghost skipped: set<nat>)
      requires Valid() && forall i :: 0 <= i < |ps| ==> ':' !in ps[i].user
      modifies cache
      ensures Valid() && out == Listed(bodies, now, ps, skipped)
      ensures forall i :: i in skipped ==> i < |ps| && ps[i] in gone
      ensures gone == {} ==> out == Listed(bodies, now, ps, {})
    {
      out, skipped := [], {};
      var i := 0;
      while i < |ps|
        invariant 0 <= i <= |ps| && Valid() && out == Listed(bodies, now, ps[..i], skipped)
        invariant forall k :: k in skipped ==> k < i && ps[k] in gone
      {
        var p := ps[i];
        assert ps[..i + 1][..i] == ps[..i];
        if p in now {
          var hit := cache.Get(KeyOf(p));
          if hit.Some? {
            out := out + [Refreshed(hit.value, now[p])];
          } else if p !in gone {
            var m := WithFlags(bodies(p), now[p]);
            Keep(p, m);
            out := out + [m];
          } else {
            SkippingLater(bodies, now, ps[..i], skipped, i);
            skipped := skipped + {i};
          }
        }
        i := i + 1;
      }
      assert ps[..i] == ps;
      assert gone == {} ==> skipped == {};
    }
  }

  lemma {:induction false} SkippingLater<B>(bodies: Place -> B, now: map<Place, set<string>>, ps: seq<Place>, skipped: set<nat>, i: nat)
    requires i >= |ps|
    ensures Listed(bodies, now, ps, skipped + {i}) == Listed(bodies, now, ps, skipped)
  {
    if ps != [] {
      SkippingLater(bodies, now, ps[..|ps| - 1], skipped, i);
    }
  }
}
