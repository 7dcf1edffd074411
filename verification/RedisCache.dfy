/** components/rediscache/cache.go: caches that share one Redis under prefixes, and why each behaves as
    if it had a Redis of its own. */
module RedisCache {
  import opened GoErrors

  datatype Option<T> = None | Some(value: T)

  /** A stored value and the time at which it stops being visible. */
  datatype Entry = Entry(val: string, expires: Option<nat>)

  type Store = map<string, Entry>

  datatype Config = Config(prefix: string, defaultTTL: int)

  /** An error instead of a reply from the server; `applied` says whether the command took effect anyway. */
  datatype Fault = NoFault | Fault(err: Error, applied: bool)

  datatype Op =
    | Get(key: string)
    | Set(key: string, val: string, ttl: int)
    | Delete(keys: seq<string>)

  datatype Reply = Got(val: string, found: bool, err: Error) | Acked(err: Error)

  // ---------- Redis ----------

  const KEEP_TTL := -1

  function Lookup(st: Store, now: nat, k: string): Option<string> {
    if k in st && (st[k].expires.None? || now < st[k].expires.value) then Some(st[k].val) else None
  }

  /** SET: a positive duration expires, KEEP_TTL keeps the expiry of a visible key, any other does not expire. */
  function Stored(st: Store, now: nat, k: string, val: string, ttl: int): Store {
    var expires :=
      if ttl > 0 then Some(now + ttl)
      else if ttl == KEEP_TTL && Lookup(st, now, k).Some? then st[k].expires
      else None;
    st[k := Entry(val, expires)]
  }

  function Without(st: Store, ks: seq<string>): Store {
    map k | k in st && k !in ks :: st[k]
  }

  // ---------- the cache on top of it ----------

  function Namespace(cfg: Config): string {
    if cfg.prefix == "" then "" else cfg.prefix + ":"
  }

  function Namespaced(cfg: Config, key: string): string {
    if cfg.prefix == "" then key else cfg.prefix + ":" + key
  }

  function EffectiveTTL(cfg: Config, ttl: int): int {
    if ttl == 0 then cfg.defaultTTL else ttl
  }

  function NamespacedAll(cfg: Config, keys: seq<string>): seq<string> {
    seq(|keys|, i requires 0 <= i < |keys| => Namespaced(cfg, keys[i]))
  }

  /** Get's reading of what the client returned. */
  function ReplyOf(r: Option<string>, err: Error): Reply {
    if Is(err, REDIS_NIL) then Got("", false, Nil)
    else if !err.Nil? then Got("", false, err)
    else Got(if r.Some? then r.value else "", true, Nil)
  }

  function GetReply(st: Store, now: nat, k: string, fault: Fault): Reply {
    if fault.Fault? then ReplyOf(None, fault.err)
    else
      var r := Lookup(st, now, k);
      ReplyOf(r, if r.None? then REDIS_NIL else Nil)
  }

  /** One call of one cache on the shared store. */
  function Shared(cfg: Config, st: Store, now: nat, op: Op, fault: Fault): (Store, Reply) {
    var applied := fault.NoFault? || fault.applied;
    var err := if fault.Fault? then fault.err else Nil;
    match op
    case Get(key) => (st, GetReply(st, now, Namespaced(cfg, key), fault))
    case Set(key, val, ttl) =>
      (if applied then Stored(st, now, Namespaced(cfg, key), val, EffectiveTTL(cfg, ttl)) else st, Acked(err))
    case Delete(keys) =>
      if keys == [] then (st, Acked(Nil))
      else (if applied then Without(st, NamespacedAll(cfg, keys)) else st, Acked(err))
  }

  // ---------- the same as objects ----------

  class Redis {
    var store: Store
    var now: nat

    constructor ()
      ensures store == map[] && now == 0
    {
      store, now := map[], 0;
    }

    method Advance(d: nat)
      modifies this`now
      ensures now == old(now) + d
    {
      now := now + d;
    }

    method SetKey(k: string, val: string, ttl: int, fault: Fault) returns (err: Error)
      modifies this`store
      ensures store == if fault.NoFault? || fault.applied then Stored(old(store), now, k, val, ttl) else old(store)
      ensures err == if fault.Fault? then fault.err else Nil
    {
      if fault.NoFault? || fault.applied { store := Stored(store, now, k, val, ttl); }
      return if fault.Fault? then fault.err else Nil;
    }

    method Del(ks: seq<string>, fault: Fault) returns (err: Error)
      modifies this`store
      ensures store == if fault.NoFault? || fault.applied then Without(old(store), ks) else old(store)
      ensures err == if fault.Fault? then fault.err else Nil
    {
      if fault.NoFault? || fault.applied { store := Without(store, ks); }
      return if fault.Fault? then fault.err else Nil;
    }
  }

  class Cache {
    const rdb: Redis
    const cfg: Config

    constructor (rdb: Redis, cfg: Config)
      ensures this.rdb == rdb && this.cfg == cfg
    {
      this.rdb, this.cfg := rdb, cfg;
    }

    method Get(key: string, fault: Fault) returns (val: string, found: bool, err: Error)
      ensures Got(val, found, err) == Shared(cfg, rdb.store, rdb.now, Op.Get(key), fault).1
    {
      var r := if fault.Fault? then None else Lookup(rdb.store, rdb.now, Namespaced(cfg, key));
      var e := if fault.Fault? then fault.err else if r.None? then REDIS_NIL else Nil;
      if Is(e, REDIS_NIL) { return "", false, Nil; }
      if !e.Nil? { return "", false, e; }
      return if r.Some? then r.value else "", true, Nil;
    }

    method Set(key: string, val: string, ttl: int, fault: Fault) returns (err: Error)
      modifies rdb`store
      ensures (rdb.store, Acked(err)) == Shared(cfg, old(rdb.store), rdb.now, Op.Set(key, val, ttl), fault)
    {
      err := rdb.SetKey(Namespaced(cfg, key), val, EffectiveTTL(cfg, ttl), fault);
    }

    method Delete(keys: seq<string>, fault: Fault) returns (err: Error)
      modifies rdb`store
      ensures (rdb.store, Acked(err)) == Shared(cfg, old(rdb.store), rdb.now, Op.Delete(keys), fault)
    {
      if |keys| == 0 { return Nil; }
      var full := new string[|keys|];
      for i := 0 to |keys|
        invariant forall j | 0 <= j < i :: full[j] == Namespaced(cfg, keys[j])
        invariant rdb.store == old(rdb.store)
      {
        full[i] := Namespaced(cfg, keys[i]);
      }
      assert full[..] == NamespacedAll(cfg, keys);
      err := rdb.Del(full[..], fault);
    }
  }

  // ---------- independent caches ----------

  /** The same call on a store that belongs to this cache alone, under the caller's own keys. */
  function Alone(cfg: Config, own: Store, now: nat, op: Op, fault: Fault): (Store, Reply) {
    var applied := fault.NoFault? || fault.applied;
    var err := if fault.Fault? then fault.err else Nil;
    match op
    case Get(key) => (own, GetReply(own, now, key, fault))
    case Set(key, val, ttl) =>
      (if applied then Stored(own, now, key, val, EffectiveTTL(cfg, ttl)) else own, Acked(err))
    case Delete(keys) =>
      if keys == [] then (own, Acked(Nil))
      else (if applied then Without(own, keys) else own, Acked(err))
  }

  datatype Event = Call(cache: nat, op: Op, fault: Fault) | Wait(d: nat)

  /** The replies, in order, that a run of events gets from caches sharing one Redis. */
  function RunShared(cfgs: seq<Config>, st: Store, now: nat, events: seq<Event>): seq<Reply>
    decreases |events|
  {
    if events == [] then []
    else
      match events[0]
      case Wait(d) => RunShared(cfgs, st, now + d, events[1..])
      case Call(i, op, fault) =>
        if i < |cfgs| then
          var r := Shared(cfgs[i], st, now, op, fault);
          [r.1] + RunShared(cfgs, r.0, now, events[1..])
        else RunShared(cfgs, st, now, events[1..])
  }

  /** The replies that the same run gets from caches with a Redis each. */
  function RunAlone(cfgs: seq<Config>, owns: seq<Store>, now: nat, events: seq<Event>): seq<Reply>
    requires |owns| == |cfgs|
    decreases |events|
  {
    if events == [] then []
    else
      match events[0]
      case Wait(d) => RunAlone(cfgs, owns, now + d, events[1..])
      case Call(i, op, fault) =>
        if i < |cfgs| then
          var r := Alone(cfgs[i], owns[i], now, op, fault);
          [r.1] + RunAlone(cfgs, owns[i := r.0], now, events[1..])
        else RunAlone(cfgs, owns, now, events[1..])
  }

  /** Neither namespace begins with the other. */
  predicate Apart(a: Config, b: Config) {
    !(Namespace(a) <= Namespace(b)) && !(Namespace(b) <= Namespace(a))
  }

  ghost predicate AllApart(cfgs: seq<Config>) {
    forall i, j | 0 <= i < j < |cfgs| :: Apart(cfgs[i], cfgs[j])
  }

  lemma NamespacedIs(cfg: Config, key: string)
    ensures Namespaced(cfg, key) == Namespace(cfg) + key
  {
  }

  lemma SameNamespace(cfg: Config, k: string, l: string)
    ensures Namespaced(cfg, k) == Namespaced(cfg, l) <==> k == l
  {
    NamespacedIs(cfg, k);
    NamespacedIs(cfg, l);
    if Namespaced(cfg, k) == Namespaced(cfg, l) {
      assert k == Namespaced(cfg, k)[|Namespace(cfg)|..];
      assert l == Namespaced(cfg, l)[|Namespace(cfg)|..];
    }
  }

  /** Where a cache keeps a key: under the prefix and a colon, or under the key itself if there is no prefix. Set changes
      that entry and no other, and a duration of -1 keeps the expiry of an entry that is still visible. */
  lemma SetStores(cfg: Config, st: Store, now: nat, key: string, val: string, ttl: int)
    ensures var st', k := Shared(cfg, st, now, Set(key, val, ttl), NoFault).0, if cfg.prefix == "" then key else cfg.prefix + ":" + key;
      var d := if ttl == 0 then cfg.defaultTTL else ttl;
      && st'.Keys == st.Keys + {k}
      && (forall other | other in st && other != k :: st'[other] == st[other])
      && st'[k].val == val
      && (d > 0 ==> st'[k].expires == Some(now + d))
      && (d <= 0 && d != -1 ==> st'[k].expires == None)
      && (d == -1 && k in st && (st[k].expires == None || now < st[k].expires.value) ==> st'[k].expires == st[k].expires)
      && (d == -1 && (k !in st || (st[k].expires != None && st[k].expires.value <= now)) ==> st'[k].expires == None)
  {
  }

  /** Delete removes the entries of its keys and no others. */
  lemma DeleteRemoves(cfg: Config, st: Store, now: nat, keys: seq<string>, k: string)
    ensures var st' := Shared(cfg, st, now, Delete(keys), NoFault).0;
      && (k in st' <==> k in st && forall i | 0 <= i < |keys| ::
            k != if cfg.prefix == "" then keys[i] else cfg.prefix + ":" + keys[i])
      && (k in st' ==> st'[k] == st[k])
  {
    if keys != [] {
      var full := NamespacedAll(cfg, keys);
      assert forall i | 0 <= i < |keys| :: full[i] == if cfg.prefix == "" then keys[i] else cfg.prefix + ":" + keys[i];
      if k in full {
        var i :| 0 <= i < |full| && full[i] == k;
        assert k == if cfg.prefix == "" then keys[i] else cfg.prefix + ":" + keys[i];
      }
    }
  }

  /** An error of the client is what Set, Delete and Get return, except that redis.Nil is no error for Get and that
      Delete without keys does not call the client; without one, Set and Delete return nil. A call that had no effect
      on Redis leaves the store as it was, and one that had has the effect it has without the error. */
  lemma FaultsAreReported(cfg: Config, st: Store, now: nat, op: Op, err: Error, applied: bool)
    ensures var (st', r) := Shared(cfg, st, now, op, Fault(err, applied));
      && (op.Set? || (op.Delete? && op.keys != []) ==> r == Acked(err))
      && (op.Delete? && op.keys == [] ==> r == Acked(Nil) && st' == st)
      && (op.Get? && err != Nil ==> r == Got("", false, if Is(err, REDIS_NIL) then Nil else err))
      && (!applied ==> st' == st)
      && (applied ==> st' == Shared(cfg, st, now, op, NoFault).0)
    ensures !op.Get? ==> Shared(cfg, st, now, op, NoFault).1 == Acked(Nil)
    ensures op.Get? ==> Shared(cfg, st, now, op, NoFault).0 == st
  {
  }

  /** A value that was set is found until its time to live, its own or the default, is over; a duration that
      is not positive sets no limit. */
  lemma SetThenGet(cfg: Config, st: Store, now: nat, key: string, val: string, ttl: int, later: nat)
    requires EffectiveTTL(cfg, ttl) != KEEP_TTL
    ensures var d := if ttl == 0 then cfg.defaultTTL else ttl;
      Shared(cfg, Shared(cfg, st, now, Set(key, val, ttl), NoFault).0, now + later, Get(key), NoFault).1 ==
      if d <= 0 || later < d then Got(val, true, Nil) else Got("", false, Nil)
  {
    assert Is(REDIS_NIL, REDIS_NIL);
  }

  /** A deleted key is missing, an error of the client is passed on, and neither is found. */
  lemma DeleteThenGet(cfg: Config, st: Store, now: nat, later: nat, keys: seq<string>, key: string, err: Error)
    requires !err.Nil? && !Is(err, REDIS_NIL)
    ensures var st' := Shared(cfg, st, now, Delete(keys), NoFault).0;
      && Shared(cfg, st', later, Get(key), NoFault).1 ==
         (if key in keys then Got("", false, Nil) else Shared(cfg, st, later, Get(key), NoFault).1)
      && Shared(cfg, st', later, Get(key), Fault(err, false)) == (st', Got("", false, err))
  {
    assert Is(REDIS_NIL, REDIS_NIL);
    InNamespaced(cfg, keys, key);
  }

  lemma InNamespaced(cfg: Config, keys: seq<string>, key: string)
    ensures key in keys <==> Namespaced(cfg, key) in NamespacedAll(cfg, keys)
  {
    if Namespaced(cfg, key) in NamespacedAll(cfg, keys) {
      var i :| 0 <= i < |keys| && NamespacedAll(cfg, keys)[i] == Namespaced(cfg, key);
      SameNamespace(cfg, key, keys[i]);
    }
    if i :| 0 <= i < |keys| && keys[i] == key {
      assert NamespacedAll(cfg, keys)[i] == Namespaced(cfg, key);
    }
  }

  /** Two caches can reach the same key exactly when one namespace begins with the other. */
  lemma CollisionWhen(a: Config, b: Config)
    ensures (exists k, l :: Namespaced(a, k) == Namespaced(b, l)) <==> !Apart(a, b)
  {
    var p, q := Namespace(a), Namespace(b);
    if k, l :| Namespaced(a, k) == Namespaced(b, l) {
      NamespacedIs(a, k);
      NamespacedIs(b, l);
      var s := Namespaced(a, k);
      assert s[..|p|] == p && s[..|q|] == q;
      if |p| <= |q| { assert q[..|p|] == s[..|p|]; } else { assert p[..|q|] == s[..|q|]; }
    }
    if p <= q {
      NamespacedIs(a, q[|p|..]);
      NamespacedIs(b, "");
      assert Namespaced(a, q[|p|..]) == Namespaced(b, "");
    }
    if q <= p {
      NamespacedIs(b, p[|q|..]);
      NamespacedIs(a, "");
      assert Namespaced(a, "") == Namespaced(b, p[|q|..]);
    }
  }

  lemma NoCollision(a: Config, b: Config, k: string, l: string)
    requires Apart(a, b)
    ensures Namespaced(a, k) != Namespaced(b, l)
  {
    CollisionWhen(a, b);
  }

  /** Distinct, non-empty prefixes without a colon keep caches apart. */
  lemma PlainPrefixesAreApart(a: Config, b: Config)
    requires a.prefix != "" && b.prefix != "" && a.prefix != b.prefix
    requires ':' !in a.prefix && ':' !in b.prefix
    ensures Apart(a, b)
  {
    NoPrefixOf(a.prefix, b.prefix);
    NoPrefixOf(b.prefix, a.prefix);
  }

  lemma NoPrefixOf(p: string, q: string)
    requires p != q && ':' !in q
    ensures !(p + ":" <= q + ":")
  {
    assert (p + ":")[|p|] == ':';
    assert |p| == |q| ==> p == (p + ":")[..|p|] && q == (q + ":")[..|p|];
  }

  /** The shared store holds, under each cache's namespace, exactly that cache's own store. */
  ghost predicate Mirrors(cfg: Config, st: Store, own: Store) {
    forall key ::
      && (key in own <==> Namespaced(cfg, key) in st)
      && (key in own ==> own[key] == st[Namespaced(cfg, key)])
  }

  lemma DeleteMirrors(cfg: Config, st: Store, own: Store, keys: seq<string>)
    requires Mirrors(cfg, st, own)
    ensures Mirrors(cfg, Without(st, NamespacedAll(cfg, keys)), Without(own, keys))
  {
    forall key ensures key in keys <==> Namespaced(cfg, key) in NamespacedAll(cfg, keys) {
      InNamespaced(cfg, keys, key);
    }
  }

  lemma SetMirrors(cfg: Config, st: Store, own: Store, now: nat, k: string, val: string, ttl: int)
    requires Mirrors(cfg, st, own)
    ensures Mirrors(cfg, Stored(st, now, Namespaced(cfg, k), val, ttl), Stored(own, now, k, val, ttl))
  {
    var st', own' := Stored(st, now, Namespaced(cfg, k), val, ttl), Stored(own, now, k, val, ttl);
    assert st'[Namespaced(cfg, k)] == own'[k];
    forall key
      ensures key in own' <==> Namespaced(cfg, key) in st'
      ensures key in own' ==> own'[key] == st'[Namespaced(cfg, key)]
    {
      SameNamespace(cfg, key, k);
      if key != k { assert key in own <==> Namespaced(cfg, key) in st; }
    }
  }

  /** A cache on the shared store behaves as it does alone. */
  lemma CallMirrors(cfg: Config, st: Store, own: Store, now: nat, op: Op, fault: Fault)
    requires Mirrors(cfg, st, own)
    ensures Shared(cfg, st, now, op, fault).1 == Alone(cfg, own, now, op, fault).1
    ensures Mirrors(cfg, Shared(cfg, st, now, op, fault).0, Alone(cfg, own, now, op, fault).0)
  {
    match op
    case Get(key) =>
    case Set(k, val, ttl) =>
      SetMirrors(cfg, st, own, now, k, val, EffectiveTTL(cfg, ttl));
    case Delete(keys) => DeleteMirrors(cfg, st, own, keys);
  }

  /** A call of one cache leaves every key of another, its expiry included, as it was. */
  lemma CallSparesOthers(cfg: Config, other: Config, st: Store, own: Store, now: nat, op: Op, fault: Fault)
    requires Apart(cfg, other) && Mirrors(other, st, own)
    ensures Mirrors(other, Shared(cfg, st, now, op, fault).0, own)
  {
    match op
    case Get(_) =>
    case Set(k, _, _) =>
      forall key ensures Namespaced(other, key) != Namespaced(cfg, k) { NoCollision(cfg, other, k, key); }
    case Delete(keys) =>
      forall key ensures Namespaced(other, key) !in NamespacedAll(cfg, keys) {
        forall i | 0 <= i < |keys| ensures NamespacedAll(cfg, keys)[i] != Namespaced(other, key) {
          NoCollision(cfg, other, keys[i], key);
        }
      }
  }

  ghost predicate AllMirror(cfgs: seq<Config>, st: Store, owns: seq<Store>)
    requires |owns| == |cfgs|
  {
    forall i | 0 <= i < |cfgs| :: Mirrors(cfgs[i], st, owns[i])
  }

  lemma CallKeepsAll(cfgs: seq<Config>, st: Store, owns: seq<Store>, now: nat, i: nat, op: Op, fault: Fault)
    requires AllApart(cfgs) && |owns| == |cfgs| && AllMirror(cfgs, st, owns) && i < |cfgs|
    ensures AllMirror(cfgs, Shared(cfgs[i], st, now, op, fault).0, owns[i := Alone(cfgs[i], owns[i], now, op, fault).0])
  {
    CallMirrors(cfgs[i], st, owns[i], now, op, fault);
    forall j | 0 <= j < |cfgs| && j != i
      ensures Mirrors(cfgs[j], Shared(cfgs[i], st, now, op, fault).0, owns[j])
    {
      CallSparesOthers(cfgs[i], cfgs[j], st, owns[j], now, op, fault);
    }
  }

  /** Whatever the calls, their interleaving, their durations, the passage of time and the faults, caches
      that are apart get the replies they would get alone. */
  lemma {:induction false} SharingIsInvisible(cfgs: seq<Config>, st: Store, owns: seq<Store>, now: nat, events: seq<Event>)
    requires AllApart(cfgs) && |owns| == |cfgs| && AllMirror(cfgs, st, owns)
    ensures RunShared(cfgs, st, now, events) == RunAlone(cfgs, owns, now, events)
    decreases |events|
  {
    if events != [] {
      match events[0]
      case Wait(d) => SharingIsInvisible(cfgs, st, owns, now + d, events[1..]);
      case Call(i, op, fault) =>
        if i < |cfgs| {
          var st', own' := Shared(cfgs[i], st, now, op, fault).0, Alone(cfgs[i], owns[i], now, op, fault).0;
          CallMirrors(cfgs[i], st, owns[i], now, op, fault);
          CallKeepsAll(cfgs, st, owns, now, i, op, fault);
          SharingIsInvisible(cfgs, st', owns[i := own'], now, events[1..]);
        } else {
          SharingIsInvisible(cfgs, st, owns, now, events[1..]);
        }
    }
  }

  /** In particular from an empty Redis, with plain prefixes. */
  lemma CachesAreIndependent(cfgs: seq<Config>, events: seq<Event>)
    requires forall i | 0 <= i < |cfgs| :: cfgs[i].prefix != "" && ':' !in cfgs[i].prefix
    requires forall i, j | 0 <= i < j < |cfgs| :: cfgs[i].prefix != cfgs[j].prefix
    ensures RunShared(cfgs, map[], 0, events) == RunAlone(cfgs, seq(|cfgs|, _ => map[]), 0, events)
  {
    forall i, j | 0 <= i < j < |cfgs| ensures Apart(cfgs[i], cfgs[j]) {
      PlainPrefixesAreApart(cfgs[i], cfgs[j]);
    }
    SharingIsInvisible(cfgs, map[], seq(|cfgs|, _ => map[]), 0, events);
  }

  /** And being apart is needed: two caches see nothing of each other, whatever is called, exactly when they are. */
  lemma ApartIsNeeded(a: Config, b: Config)
    ensures Apart(a, b) <==>
      forall events: seq<Event> :: RunShared([a, b], map[], 0, events) == RunAlone([a, b], [map[], map[]], 0, events)
  {
    if Apart(a, b) {
      forall events: seq<Event>
        ensures RunShared([a, b], map[], 0, events) == RunAlone([a, b], [map[], map[]], 0, events)
      {
        SharingIsInvisible([a, b], map[], [map[], map[]], 0, events);
      }
    } else {
      CollisionWhen(a, b);
      var k, l :| Namespaced(a, k) == Namespaced(b, l);
      Leak(a, b, k, l);
    }
  }

  /** What the first cache has just stored, the second one finds. */
  lemma Leak(a: Config, b: Config, k: string, l: string)
    requires Namespaced(a, k) == Namespaced(b, l)
    ensures var events := [Call(0, Set(k, "", 1), NoFault), Call(1, Get(l), NoFault)];
      RunShared([a, b], map[], 0, events) != RunAlone([a, b], [map[], map[]], 0, events)
  {
    var get := [Call(1, Get(l), NoFault)];
    var events := [Call(0, Set(k, "", 1), NoFault)] + get;
    assert events[1..] == get;
    var st := Stored(map[], 0, Namespaced(a, k), "", 1);
    var own := Stored(map[], 0, k, "", 1);
    var none: seq<Store> := [map[], map[]];
    assert none[0 := own] == [own, map[]];
    assert RunShared([a, b], map[], 0, events) == [Acked(Nil)] + RunShared([a, b], st, 0, get);
    assert RunAlone([a, b], [map[], map[]], 0, events) == [Acked(Nil)] + RunAlone([a, b], [own, map[]], 0, get);
    assert RunShared([a, b], map[], 0, events)[1] == RunShared([a, b], st, 0, get)[0] == Got("", true, Nil);
    assert RunAlone([a, b], none, 0, events)[1] == RunAlone([a, b], [own, map[]], 0, get)[0] == Got("", false, Nil);
  }
}
