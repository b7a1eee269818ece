/** The claim on an authorization id: examples/lgf-frappe-pep/src/replay.ts. Times are in milliseconds. */
module ReplayStore {
  import opened Outcome

  /** How long a Redis claim is kept, in whole seconds, computed when the call is made. */
  function Ttl(expiry: int, now: nat, skew: nat): (ttl: int)
    ensures ttl >= 1
  {
    var seconds := now / 1000;
    if expiry - seconds + skew < 1 then 1 else expiry - seconds + skew
  }

  /** A key set at `arrival` with the time to live computed at `now` outlives the expiry by the skew. */
  lemma ClaimOutlivesExpiry(expiry: int, now: nat, skew: nat, arrival: nat)
    requires now <= arrival
    ensures arrival + 1000 * Ttl(expiry, now, skew) >= 1000 * (expiry + skew)
  {
  }

  /**
   * The time to live is the shortest that does so, in whole seconds from the
   * second in which it is computed, unless that is less than one second.
   */
  lemma TtlIsTight(expiry: int, now: nat, skew: nat)
    ensures var ttl := Ttl(expiry, now, skew);
            && now + 1000 * ttl >= 1000 * (expiry + skew)
            && (ttl > 1 ==> 1000 * (expiry + skew) > now + 1000 * (ttl - 1))
            && (ttl == 1 <==> 1000 * (expiry + skew) < now - now % 1000 + 2000)
  {
  }

  datatype Namespace = Namespace(prefix: string, issuer: string, audience: string)

  /** What the keys of a namespace start with; colons inside the parts are not escaped. */
  function Stem(ns: Namespace): string {
    ns.prefix + ":" + ns.issuer + ":" + ns.audience
  }

  function Key(ns: Namespace, authId: string): string {
    Stem(ns) + ":" + authId
  }

  lemma KeyInjective(ns: Namespace, a: string, b: string)
    requires Key(ns, a) == Key(ns, b)
    ensures a == b
  {
    var p := Stem(ns) + ":";
    assert (p + a)[|p|..] == a && (p + b)[|p|..] == b;
  }

  /** One stem continues the other after a colon. */
  predicate Continues(stem: string, other: string) {
    stem + ":" <= other
  }

  /** No id of one namespace has a key of the other exactly when the stems differ and neither continues the other. */
  lemma NamespacesApartIff(ns: Namespace, ms: Namespace)
    ensures (forall a, b :: Key(ns, a) != Key(ms, b))
       <==> Stem(ns) != Stem(ms) && !Continues(Stem(ns), Stem(ms)) && !Continues(Stem(ms), Stem(ns))
  {
    var s, t := Stem(ns), Stem(ms);
    if s == t {
      assert Key(ns, "") == Key(ms, "");
    } else if Continues(s, t) {
      Collide(ns, ms);
    } else if Continues(t, s) {
      Collide(ms, ns);
    } else {
      forall a, b ensures Key(ns, a) != Key(ms, b) {
        if Key(ns, a) == Key(ms, b) { Overlap(s, a, t, b); }
      }
    }
  }

  lemma Collide(ns: Namespace, ms: Namespace)
    requires Continues(Stem(ns), Stem(ms))
    ensures exists a, b :: Key(ns, a) == Key(ms, b)
  {
    var p := Stem(ns) + ":";
    var a := Stem(ms)[|p|..] + ":";
    assert Stem(ms) == p + Stem(ms)[|p|..];
    assert Key(ns, a) == Key(ms, "");
  }

  lemma Overlap(s: string, a: string, t: string, b: string)
    requires s + ":" + a == t + ":" + b
    ensures s == t || Continues(s, t) || Continues(t, s)
  {
    var k := s + ":" + a;
    assert k[..|s|] == s && k[..|t|] == t && k[|s|] == ':' && k[|t|] == ':';
    if |s| < |t| {
      assert (s + ":") == k[..|s| + 1] <= t;
    } else if |t| < |s| {
      assert (t + ":") == k[..|t| + 1] <= s;
    }
  }

  predicate NoColon(s: string) {
    ':' !in s
  }

  predicate Plain(ns: Namespace) {
    NoColon(ns.prefix) && NoColon(ns.issuer) && NoColon(ns.audience)
  }

  /** Text before the first colon and after it are both determined. */
  lemma FirstColon(x: string, r: string, y: string, s: string)
    requires NoColon(x) && NoColon(y) && x + (":" + r) == y + (":" + s)
    ensures x == y && r == s
  {
    var k := x + (":" + r);
    assert k[|x|] == ':' && k[|y|] == ':' && k[..|x|] == x && k[..|y|] == y;
    assert k[|x| + 1..] == r && k[|y| + 1..] == s;
  }

  /** Without colons in their parts, namespaces share no key at all. */
  lemma PlainKeysInjective(ns: Namespace, a: string, ms: Namespace, b: string)
    requires Plain(ns) && Plain(ms) && Key(ns, a) == Key(ms, b)
    ensures ns == ms && a == b
  {
    var r, s := ns.audience + (":" + a), ms.audience + (":" + b);
    assert Key(ns, a) == ns.prefix + (":" + (ns.issuer + (":" + r)));
    assert Key(ms, b) == ms.prefix + (":" + (ms.issuer + (":" + s)));
    FirstColon(ns.prefix, ns.issuer + (":" + r), ms.prefix, ms.issuer + (":" + s));
    FirstColon(ns.issuer, r, ms.issuer, s);
    FirstColon(ns.audience, a, ms.audience, b);
  }

  /** An issuer and an audience that share a colon, and an audience and an id that do, are confused. */
  lemma ColonsConfuse(prefix: string, x: string, y: string, z: string, id: string)
    ensures Key(Namespace(prefix, x, y + ":" + z), id) == Key(Namespace(prefix, x + ":" + y, z), id)
    ensures Key(Namespace(prefix, x, y), z + ":" + id) == Key(Namespace(prefix, x, y + ":" + z), id)
  {
    var k := prefix + ":" + x + ":" + y + ":" + z + ":" + id;
    assert Key(Namespace(prefix, x, y + ":" + z), id) == k;
    assert Key(Namespace(prefix, x + ":" + y, z), id) == k;
    assert Key(Namespace(prefix, x, y), z + ":" + id) == k;
  }

  /** Live keys and the time each of them is dropped; `None` is never. */
  type Keys = map<string, Option<int>>

  predicate Live(keys: Keys, key: string, time: int) {
    key in keys && (keys[key].None? || time < keys[key].value)
  }

  /** `SET key value NX`: the key is taken until `until` unless it is live already. */
  function AfterSet(keys: Keys, key: string, time: int, until: Option<int>): Keys {
    if Live(keys, key, time) then keys else keys[key := until]
  }

  /** The default store: two sets that only grow. */
  class InMemoryReplayStore {
    var consumedAuthIds: set<string>

    constructor ()
      ensures consumedAuthIds == {}
    {
      consumedAuthIds := {};
    }

    method ConsumeAuthId(authId: string) returns (granted: bool)
      modifies this
      ensures granted <==> authId !in old(consumedAuthIds)
      ensures consumedAuthIds == old(consumedAuthIds) + {authId}
    {
      if authId in consumedAuthIds { return false; }
      consumedAuthIds := consumedAuthIds + {authId};
      return true;
    }
  }

  /** The Redis store: `SET key value NX EX ttl`, reaching the server at `arrival`. */
  class RedisReplayStore {
    const ns: Namespace
    const skew: nat
    var keys: Keys

    constructor (ns: Namespace, skew: nat)
      ensures this.ns == ns && this.skew == skew && keys == map[]
    {
      this.ns := ns;
      this.skew := skew;
      keys := map[];
    }

    method SetNx(key: string, ttl: int, arrival: nat) returns (ok: bool)
      modifies this
      ensures ok <==> !Live(old(keys), key, arrival)
      ensures keys == AfterSet(old(keys), key, arrival, Some(arrival + 1000 * ttl))
    {
      if Live(keys, key, arrival) { return false; }
      keys := keys[key := Some(arrival + 1000 * ttl)];
      return true;
    }

    method ConsumeAuthId(authId: string, expiry: int, now: nat, arrival: nat) returns (granted: bool)
      requires now <= arrival
      modifies this
      ensures granted <==> !Live(old(keys), Key(ns, authId), arrival)
      ensures forall id, t :: id != authId ==> Live(keys, Key(ns, id), t) == Live(old(keys), Key(ns, id), t)
      ensures granted ==> forall t :: arrival <= t < 1000 * (expiry + skew) ==> Live(keys, Key(ns, authId), t)
      ensures !granted ==> keys == old(keys)
    {
      var ttl := Ttl(expiry, now, skew);
      ClaimOutlivesExpiry(expiry, now, skew, arrival);
      forall id | id != authId ensures Key(ns, id) != Key(ns, authId) {
        if Key(ns, id) == Key(ns, authId) { KeyInjective(ns, id, authId); }
      }
      granted := SetNx(Key(ns, authId), ttl, arrival);
    }
  }
}
