/** The streaming cache: a keyed store with a per-symbol index, duplicate
    suppression, expiry and four eviction policies. */
module StreamCache {
  import opened Sequences
  import opened Market
  import opened Optional

  /** A market datum with the key text and the duplicate hash computed from it. */
  datatype Datum = Datum(symbol: Symbol, time: int, key: string, hash: string)

  datatype Entry = Entry(data: Datum, stored: int, lastAccess: int, accessSeq: nat)

  datatype Policy = LRU | FIFO | TTL | COUNT

  /** Entries by key, the insertion order of the keys, and the symbol index. */
  datatype Store = Store(cache: map<string, Entry>, order: seq<string>, index: map<Symbol, set<string>>)

  const DEDUP_WINDOW := 10000

  // ------------------------------------------------------------- invariants

  ghost predicate OrderOk(cache: map<string, Entry>, order: seq<string>) {
    && NoRepeats(order)
    && (forall k :: k in order <==> k in cache)
    && (forall k :: k in cache ==> cache[k].data.key == k)
  }

  /** The index groups exactly the cached keys by the symbol of their entry. A
      symbol may keep an empty group after expiry. */
  ghost predicate IndexOk(cache: map<string, Entry>, index: map<Symbol, set<string>>) {
    && (forall k :: k in cache ==> cache[k].data.symbol in index && k in index[cache[k].data.symbol])
    && (forall y, k :: y in index && k in index[y] ==> k in cache && cache[k].data.symbol == y)
  }

  /** The access numbers of the entries are their last positions in the history
      of touches, and access times follow that order. */
  ghost predicate TouchesOk(cache: map<string, Entry>, touches: seq<string>, latest: int) {
    && (forall k :: k in cache ==> LastTouch(touches, k, cache[k].accessSeq) && cache[k].lastAccess <= latest)
    && (forall k, k' :: k in cache && k' in cache && cache[k].accessSeq < cache[k'].accessSeq
          ==> cache[k].lastAccess <= cache[k'].lastAccess)
  }

  /** The last touch of `k` was touch number `n`, counting from 1. */
  ghost predicate LastTouch(touches: seq<string>, k: string, n: nat) {
    1 <= n <= |touches| && touches[n - 1] == k && k !in touches[n..]
  }

  // ------------------------------------------------------ changes of the store

  function Without(order: seq<string>, k: string): seq<string> {
    if |order| == 0 then []
    else if order[0] == k then Without(order[1..], k)
    else [order[0]] + Without(order[1..], k)
  }

  lemma {:induction false} WithoutMembers(order: seq<string>, k: string)
    ensures forall x :: x in Without(order, k) <==> x in order && x != k
  {
    if |order| > 0 {
      WithoutMembers(order[1..], k);
      assert forall x :: x in order <==> x == order[0] || x in order[1..];
    }
  }

  lemma {:induction false} WithoutDistinct(order: seq<string>, k: string)
    requires NoRepeats(order)
    ensures NoRepeats(Without(order, k))
  {
    if |order| > 0 {
      WithoutDistinct(order[1..], k);
      WithoutMembers(order[1..], k);
      var r := Without(order[1..], k);
      assert forall i :: 0 <= i < |r| ==> r[i] in order[1..];
    }
  }

  function Remove(s: Store, k: string): Store
    requires k in s.cache && s.cache[k].data.symbol in s.index
  {
    var y := s.cache[k].data.symbol;
    var group := s.index[y] - {k};
    Store(s.cache - {k}, Without(s.order, k), if group == {} then s.index - {y} else s.index[y := group])
  }

  function Insert(s: Store, e: Entry): Store {
    var k, y := e.data.key, e.data.symbol;
    Store(s.cache[k := e],
          if k in s.cache then s.order else s.order + [k],
          s.index[y := (if y in s.index then s.index[y] else {}) + {k}])
  }

  lemma {:induction false} DropKeepsOrder(cache: map<string, Entry>, order: seq<string>, k: string)
    requires OrderOk(cache, order) && k in cache
    ensures OrderOk(cache - {k}, Without(order, k))
    ensures |cache - {k}| == |cache| - 1
  {
    hide NoRepeats, Without;
    WithoutMembers(order, k);
    WithoutDistinct(order, k);
    assert (cache - {k}).Keys == cache.Keys - {k};
    assert |cache.Keys - {k}| == |cache.Keys| - 1;
  }

  lemma RemoveKeepsIndex(s: Store, k: string)
    requires IndexOk(s.cache, s.index) && k in s.cache
    ensures IndexOk(Remove(s, k).cache, Remove(s, k).index)
  {
    hide Without;
    var r := Remove(s, k);
    forall x | x in r.cache
      ensures r.cache[x].data.symbol in r.index && x in r.index[r.cache[x].data.symbol]
    {
      var y := s.cache[x].data.symbol;
      assert x in s.index[y];
      if y == s.cache[k].data.symbol {
        assert x in s.index[y] - {k};
      }
    }
  }

  /** Removing a key leaves every other entry, its place in the order and its group;
      the key's symbol keeps its group exactly while it has another entry. */
  lemma {:induction false} RemoveIs(s: Store, k: string)
    requires IndexOk(s.cache, s.index) && k in s.cache && s.cache[k].data.symbol in s.index
    ensures var r, y := Remove(s, k), s.cache[k].data.symbol;
            && r.cache == s.cache - {k} && r.order == Without(s.order, k)
            && (y in r.index <==> exists x :: x in s.cache && x != k && s.cache[x].data.symbol == y)
            && forall z :: z != y ==> (z in r.index <==> z in s.index) && (z in s.index ==> r.index[z] == s.index[z])
  {
    hide Without;
    var y := s.cache[k].data.symbol;
    var group := s.index[y] - {k};
    if group != {} {
      var x :| x in group;
      assert x in s.cache && x != k && s.cache[x].data.symbol == y;
    }
    forall x | x in s.cache && x != k && s.cache[x].data.symbol == y
      ensures x in group
    {
    }
  }

  lemma InsertKeepsOrder(s: Store, e: Entry)
    requires OrderOk(s.cache, s.order)
    ensures OrderOk(Insert(s, e).cache, Insert(s, e).order)
    ensures |Insert(s, e).cache| == if e.data.key in s.cache then |s.cache| else |s.cache| + 1
  {
    var k := e.data.key;
    var r := Insert(s, e);
    SizeAfterInsert(s.cache, k, e);
    if k !in s.cache {
      assert k !in s.order;
      assert NoRepeats(r.order);
      assert forall x :: x in r.order <==> x in s.order || x == k;
    }
  }

  lemma SizeAfterInsert(cache: map<string, Entry>, k: string, e: Entry)
    ensures |cache[k := e]| == if k in cache then |cache| else |cache| + 1
  {
    assert cache[k := e].Keys == cache.Keys + {k};
    if k in cache {
      assert cache.Keys + {k} == cache.Keys;
    }
  }

  /** Discarding a key from its group keeps the rest of the index. */
  lemma DiscardKeepsIndex(cache: map<string, Entry>, index: map<Symbol, set<string>>, k: string)
    requires IndexOk(cache, index) && k in cache
    ensures var y := cache[k].data.symbol; y in index && IndexOk(cache - {k}, index[y := index[y] - {k}])
  {
  }

  lemma InIndex(s: Store, k: string)
    requires IndexOk(s.cache, s.index) && k in s.cache
    ensures s.cache[k].data.symbol in s.index
  {
  }

  lemma NotEmpty(s: Store)
    requires OrderOk(s.cache, s.order) && s.cache != map[]
    ensures s.order != []
  {
    var k :| k in s.cache;
    assert k in s.order;
  }

  /** Storing keeps the index correct exactly when the key does not belong to
      an entry of another symbol: keys name the ticker only, so two symbols with
      one ticker can collide, and then the other symbol keeps a stale key. */
  lemma InsertKeepsIndexIff(s: Store, e: Entry)
    requires OrderOk(s.cache, s.order) && IndexOk(s.cache, s.index)
    ensures IndexOk(Insert(s, e).cache, Insert(s, e).index)
            <==> (e.data.key in s.cache ==> s.cache[e.data.key].data.symbol == e.data.symbol)
  {
    var r := Insert(s, e);
    var k, y := e.data.key, e.data.symbol;
    if k in s.cache && s.cache[k].data.symbol != y {
      var old_ := s.cache[k].data.symbol;
      assert k in r.index[old_] && r.cache[k].data.symbol != old_;
    } else {
      forall y', k' | y' in r.index && k' in r.index[y']
        ensures k' in r.cache && r.cache[k'].data.symbol == y'
      {
        if !(y' == y && k' == k) {
          assert y' in s.index && k' in s.index[y'];
        }
      }
    }
  }

  // ---------------------------------------------------------------- touches

  /** One more touch, of a key that may be new. */
  lemma TouchKeeps(cache: map<string, Entry>, touches: seq<string>, latest: int, k: string, e: Entry, now: int)
    requires TouchesOk(cache, touches, latest) && now >= latest
    requires e.accessSeq == |touches| + 1 && e.lastAccess == now
    ensures TouchesOk(cache[k := e], touches + [k], now)
  {
    var t := touches + [k];
    forall x | x in cache && x != k
      ensures LastTouch(t, x, cache[x].accessSeq)
    {
      var n := cache[x].accessSeq;
      assert LastTouch(touches, x, n);
      assert t[n..] == touches[n..] + [k];
    }
    assert t[|touches| + 1..] == [];
    assert LastTouch(t, k, |touches| + 1);
  }

  lemma FewerTouches(cache: map<string, Entry>, fewer: map<string, Entry>, touches: seq<string>, latest: int)
    requires TouchesOk(cache, touches, latest)
    requires forall k :: k in fewer ==> k in cache && fewer[k] == cache[k]
    ensures TouchesOk(fewer, touches, latest)
  {
  }

  /** Every other cached key was touched after the last touch of `v`. */
  ghost predicate LeastRecent(cache: map<string, Entry>, touches: seq<string>, v: string) {
    exists p :: && 0 <= p < |touches| && touches[p] == v && v !in touches[p + 1..]
                && forall k :: k in cache && k != v ==> k in touches[p + 1..]
  }

  lemma SmallestIsLeastRecent(cache: map<string, Entry>, touches: seq<string>, latest: int, v: string)
    requires TouchesOk(cache, touches, latest) && v in cache
    requires forall k :: k in cache ==> cache[v].accessSeq <= cache[k].accessSeq
    ensures LeastRecent(cache, touches, v)
  {
    var p := cache[v].accessSeq - 1;
    assert LastTouch(touches, v, p + 1);
    forall k | k in cache && k != v
      ensures k in touches[p + 1..]
    {
      var n := cache[k].accessSeq;
      assert LastTouch(touches, k, n);
      assert n - 1 != p;
      assert touches[p + 1..][n - 1 - (p + 1)] == k;
    }
  }

  // --------------------------------------------------------------- eviction

  predicate Expired(e: Entry, ttl: Option<int>, now: int) {
    ttl.Some? && ttl.value != 0 && now - e.stored > ttl.value
  }

  /** LRU order: access time, then access number. */
  predicate Older(a: Entry, b: Entry) {
    a.lastAccess < b.lastAccess || (a.lastAccess == b.lastAccess && a.accessSeq < b.accessSeq)
  }

  /** Whether `a` comes strictly before `b` under the comparison a policy uses. */
  predicate Precedes(policy: Policy, a: Entry, b: Entry) {
    match policy
    case LRU => Older(a, b)
    case FIFO => a.stored < b.stored
    case TTL => a.lastAccess < b.lastAccess
    case COUNT => false
  }

  /** The minimum of a comparison, the earliest inserted one among equals; with
      nothing to compare, the earliest inserted of all. */
  ghost predicate FirstMinimal(s: Store, policy: Policy, i: nat) {
    && i < |s.order|
    && (forall j :: 0 <= j < |s.order| ==> s.order[j] in s.cache)
    && (forall j :: 0 <= j < i ==> Precedes(policy, s.cache[s.order[i]], s.cache[s.order[j]]))
    && (forall j :: i < j < |s.order| ==> !Precedes(policy, s.cache[s.order[j]], s.cache[s.order[i]]))
  }

  /** The entry a policy evicts: under TTL the first expired one if there is
      one, otherwise the first minimal one. */
  ghost predicate IsVictim(s: Store, policy: Policy, ttl: Option<int>, now: int, v: string) {
    exists i: nat {:trigger s.order[i]} :: i < |s.order| && s.order[i] == v && v in s.cache
      && if policy == TTL && exists j :: 0 <= j < |s.order| && s.order[j] in s.cache && Expired(s.cache[s.order[j]], ttl, now)
         then Expired(s.cache[v], ttl, now)
              && forall j :: 0 <= j < i ==> s.order[j] in s.cache && !Expired(s.cache[s.order[j]], ttl, now)
         else FirstMinimal(s, policy, i)
  }

  /** What the policies evict: FIFO an entry stored first, TTL an expired one or,
      without any, one that was looked at first, COUNT the key inserted first; the
      earliest inserted key among equals. */
  lemma VictimIs(s: Store, policy: Policy, ttl: Option<int>, now: int, v: string)
    requires OrderOk(s.cache, s.order) && IsVictim(s, policy, ttl, now, v)
    ensures v in s.cache
    ensures policy == FIFO ==> forall k :: k in s.cache ==> s.cache[v].stored <= s.cache[k].stored
    ensures policy == COUNT ==> s.order[0] == v
    ensures policy == TTL && (exists k :: k in s.cache && Expired(s.cache[k], ttl, now)) ==> Expired(s.cache[v], ttl, now)
    ensures policy == TTL && !Expired(s.cache[v], ttl, now) ==>
              forall k :: k in s.cache ==> s.cache[v].lastAccess <= s.cache[k].lastAccess
  {
    hide NoRepeats;
    var i := PlaceOf(s, policy, ttl, now, v);
    forall k | k in s.cache
      ensures exists j :: 0 <= j < |s.order| && s.order[j] == k
    {
      assert k in s.order;
    }
  }

  /** Among entries that the policy cannot tell apart it is the one inserted first. */
  lemma VictimIsEarliest(s: Store, policy: Policy, ttl: Option<int>, now: int, v: string, k: string)
    requires OrderOk(s.cache, s.order) && IsVictim(s, policy, ttl, now, v)
    requires v in s.cache && k in s.cache && Ties(policy, ttl, now, s.cache[k], s.cache[v])
    ensures Before(s.order, v, k)
  {
    hide NoRepeats;
    var i := PlaceOf(s, policy, ttl, now, v);
    assert k in s.order;
    var j :| 0 <= j < |s.order| && s.order[j] == k;
    assert i <= j;
  }

  /** Where a victim stands, and why it was picked. */
  lemma PlaceOf(s: Store, policy: Policy, ttl: Option<int>, now: int, v: string) returns (i: nat)
    requires IsVictim(s, policy, ttl, now, v)
    ensures i < |s.order| && s.order[i] == v && v in s.cache
    ensures if policy == TTL && exists j :: 0 <= j < |s.order| && s.order[j] in s.cache && Expired(s.cache[s.order[j]], ttl, now)
            then Expired(s.cache[v], ttl, now)
                 && forall j :: 0 <= j < i ==> s.order[j] in s.cache && !Expired(s.cache[s.order[j]], ttl, now)
            else FirstMinimal(s, policy, i)
  {
    i :| i < |s.order| && s.order[i] == v && v in s.cache
      && if policy == TTL && exists j :: 0 <= j < |s.order| && s.order[j] in s.cache && Expired(s.cache[s.order[j]], ttl, now)
         then Expired(s.cache[v], ttl, now)
              && forall j :: 0 <= j < i ==> s.order[j] in s.cache && !Expired(s.cache[s.order[j]], ttl, now)
         else FirstMinimal(s, policy, i);
  }

  /** Two entries that a policy cannot tell apart. */
  predicate Ties(policy: Policy, ttl: Option<int>, now: int, a: Entry, b: Entry) {
    match policy
    case LRU => a.lastAccess == b.lastAccess && a.accessSeq == b.accessSeq
    case FIFO => a.stored == b.stored
    case TTL => Expired(a, ttl, now) == Expired(b, ttl, now) && (Expired(a, ttl, now) || a.lastAccess == b.lastAccess)
    case COUNT => true
  }

  predicate Before(order: seq<string>, a: string, b: string) {
    exists i, j :: 0 <= i <= j < |order| && order[i] == a && order[j] == b
  }

  /** What a look-up of a symbol must return, by a scan of the whole cache. */
  function Matches(s: Store, symbol: Symbol, since: Option<int>, ttl: Option<int>, now: int): set<string> {
    set k | k in s.cache && s.cache[k].data.symbol == symbol && Wanted(s.cache[k], since, ttl, now)
  }

  predicate Wanted(e: Entry, since: Option<int>, ttl: Option<int>, now: int) {
    !Expired(e, ttl, now) && (since.Some? ==> e.data.time >= since.value)
  }

  predicate ByTime(s: seq<Datum>) { SortedBy(s, TimeOf) }

  /** How often a datum occurs among the entries of a set of keys. */
  function Occurs(cache: map<string, Entry>, keys: set<string>, d: Datum): nat {
    if d.key in keys && d.key in cache && cache[d.key].data == d then 1 else 0
  }

  function TimeOf(d: Datum): int { d.time }

  /** The stable sort by time. */
  lemma {:induction false} SortedByTime(s: seq<Datum>)
    ensures ByTime(SortBy(s, TimeOf)) && multiset(SortBy(s, TimeOf)) == multiset(s) && |SortBy(s, TimeOf)| == |s|
    ensures forall t :: WithKey(SortBy(s, TimeOf), TimeOf, t) == WithKey(s, TimeOf, t)
  {
    hide SortBy, WithKey;
    SortByIs(s, TimeOf);
    forall t ensures WithKey(SortBy(s, TimeOf), TimeOf, t) == WithKey(s, TimeOf, t) {
      SortStable(s, TimeOf, t);
    }
  }

  /** The last hashes, each once; a new one pushes the oldest out of a full window. */
  function Remember(seen: seq<string>, hash: string): seq<string> {
    if hash in seen then seen
    else if |seen| == DEDUP_WINDOW then seen[1..] + [hash]
    else seen + [hash]
  }

  // ------------------------------------------------- the window of hashes

  function LastOf(s: seq<string>, n: nat): seq<string> {
    if |s| <= n then s else s[|s| - n..]
  }

  /** The hashes that were new when they came: not among the ten thousand new ones
      before them. */
  function NewHashes(hashes: seq<string>): seq<string> {
    if |hashes| == 0 then []
    else
      var before, h := NewHashes(hashes[..|hashes| - 1]), hashes[|hashes| - 1];
      if h in LastOf(before, 10000) then before else before + [h]
  }

  function RememberAll(hashes: seq<string>): seq<string> {
    if |hashes| == 0 then [] else Remember(RememberAll(hashes[..|hashes| - 1]), hashes[|hashes| - 1])
  }

  /** Whatever hashes came, the remembered ones are the last ten thousand new ones,
      each once: a datum is a duplicate exactly of one of these. */
  lemma {:induction false} WindowIs(hashes: seq<string>)
    ensures RememberAll(hashes) == LastOf(NewHashes(hashes), 10000)
    ensures NoRepeats(RememberAll(hashes))
  {
    if |hashes| > 0 {
      var front, h := hashes[..|hashes| - 1], hashes[|hashes| - 1];
      WindowIs(front);
      SlideWindow(NewHashes(front), h);
    }
  }

  lemma {:induction false} SlideWindow(all: seq<string>, h: string)
    requires NoRepeats(LastOf(all, 10000))
    ensures Remember(LastOf(all, 10000), h) == LastOf(if h in LastOf(all, 10000) then all else all + [h], 10000)
    ensures NoRepeats(Remember(LastOf(all, 10000), h))
  {
    var seen := LastOf(all, 10000);
    var r := Remember(seen, h);
    if h !in seen {
      assert r == (if |seen| == 10000 then seen[1..] else seen) + [h];
      assert forall i :: 0 <= i < |seen| ==> seen[i] != h;
      assert LastOf(all + [h], 10000) == r;
    }
  }

  // ------------------------------------------ duplicate suppression and index

  /** What duplicate suppression and the index depend on. */
  datatype View = View(store: Store, seen: seq<string>)

  /** An operation that takes entries away or touches them, and forgets no hash. */
  ghost predicate Keeps(pre: View, post: View) {
    && post.seen == pre.seen && SameData(pre.store.cache, post.store.cache)
    && (IndexOk(pre.store.cache, pre.store.index) ==> IndexOk(post.store.cache, post.store.index))
  }

  lemma {:induction false} KeepsItself(v: View)
    ensures Keeps(v, v)
  {
  }

  lemma {:induction false} RemoveKeeps(s: Store, k: string, seen: seq<string>)
    requires k in s.cache && s.cache[k].data.symbol in s.index
    ensures Keeps(View(s, seen), View(Remove(s, k), seen))
  {
    if IndexOk(s.cache, s.index) {
      RemoveKeepsIndex(s, k);
    }
    hide IndexOk;
  }

  lemma {:induction false} TouchedKeeps(s: Store, after: map<string, Entry>, keys: set<string>, count: nat, now: int, seen: seq<string>)
    requires Touched(s.cache, after, keys, count, now)
    ensures Keeps(View(s, seen), View(s.(cache := after), seen))
  {
  }

  lemma {:induction false} RefusedOffer(v: View, d: Datum)
    requires d.hash in v.seen
    ensures Offers(v, d, v)
  {
  }

  lemma {:induction false} StoredOffer(pre: View, room: View, e: Entry, post: View)
    requires e.data.hash !in pre.seen && Keeps(pre, room) && room.seen == pre.seen
    requires post.seen == Remember(pre.seen, e.data.hash) && post.store == Insert(room.store, e)
    ensures Offers(pre, e.data, post)
  {
  }

  /** Whatever is left is what was there. */
  ghost predicate SameData(pre: map<string, Entry>, post: map<string, Entry>) {
    forall k :: k in post ==> k in pre && post[k].data == pre[k].data
  }

  /** An offer with duplicate suppression on: refused, or stored after making room. */
  ghost predicate Offers(pre: View, d: Datum, post: View) {
    if d.hash in pre.seen then post == pre
    else
      && post.seen == Remember(pre.seen, d.hash)
      && exists room: View, e: Entry ::
           Keeps(pre, room) && room.seen == pre.seen && e.data == d && post.store == Insert(room.store, e)
  }

  /** Every cached entry's hash is remembered, and belongs to its key. */
  ghost predicate Remembered(hashOf: string -> string, v: View) {
    forall k :: k in v.store.cache ==>
      && v.store.cache[k].data.hash in v.seen
      && v.store.cache[k].data.key == k && v.store.cache[k].data.hash == hashOf(k)
  }

  /** With hashes that belong to keys, and none forgotten by this offer, a datum
      whose key is cached is refused, so that the index stays correct. */
  lemma {:induction false} OfferKeepsSane(hashOf: string -> string, pre: View, d: Datum, post: View)
    requires Offers(pre, d, post) && d.hash == hashOf(d.key) && |pre.seen| < DEDUP_WINDOW
    requires IndexOk(pre.store.cache, pre.store.index) && Remembered(hashOf, pre)
    ensures IndexOk(post.store.cache, post.store.index) && Remembered(hashOf, post)
  {
    hide IndexOk, Insert;
    if d.hash !in pre.seen {
      var room: View, e: Entry :| Keeps(pre, room) && room.seen == pre.seen && e.data == d
                                  && post.store == Insert(room.store, e);
      KeepsRemembered(hashOf, pre, room);
      NewIsNotCached(hashOf, room, d);
      FreeKeyKeepsIndex(room.store, e);
      InsertRemembered(hashOf, room, e, post);
    }
  }

  lemma {:induction false} KeepsRemembered(hashOf: string -> string, pre: View, post: View)
    requires Keeps(pre, post) && Remembered(hashOf, pre)
    ensures Remembered(hashOf, post)
  {
    hide IndexOk;
  }

  lemma {:induction false} NewIsNotCached(hashOf: string -> string, v: View, d: Datum)
    requires Remembered(hashOf, v) && d.hash == hashOf(d.key) && d.hash !in v.seen
    ensures d.key !in v.store.cache
  {
  }

  lemma {:induction false} InsertRemembered(hashOf: string -> string, room: View, e: Entry, post: View)
    requires Remembered(hashOf, room) && e.data.hash == hashOf(e.data.key) && |room.seen| < DEDUP_WINDOW
    requires post.store == Insert(room.store, e) && post.seen == Remember(room.seen, e.data.hash)
    ensures Remembered(hashOf, post)
  {
    assert forall h :: h in room.seen ==> h in post.seen;
  }

  lemma {:induction false} FreeKeyKeepsIndex(s: Store, e: Entry)
    requires IndexOk(s.cache, s.index) && e.data.key !in s.cache
    ensures IndexOk(Insert(s, e).cache, Insert(s, e).index)
  {
  }

  /** A history of a cache with duplicate suppression: views, and between them
      the offers and other operations. */
  ghost predicate History(views: seq<View>, offers: seq<Option<Datum>>) {
    && |views| == |offers| + 1 && views[0] == View(Store(map[], [], map[]), [])
    && forall i :: 0 <= i < |offers| ==>
         if offers[i].Some? then Offers(views[i], offers[i].value, views[i + 1]) else Keeps(views[i], views[i + 1])
  }

  /** Over every history in which equal keys have equal hashes and no hash is
      forgotten, duplicate suppression keeps the index correct, whatever symbols
      share a ticker. */
  lemma {:induction false} DedupGuardsIndex(hashOf: string -> string, views: seq<View>, offers: seq<Option<Datum>>, i: nat)
    requires History(views, offers) && i < |views|
    requires forall j :: 0 <= j < |offers| && offers[j].Some? ==> offers[j].value.hash == hashOf(offers[j].value.key)
    requires forall j :: 0 <= j < i ==> |views[j].seen| < DEDUP_WINDOW
    ensures IndexOk(views[i].store.cache, views[i].store.index) && Remembered(hashOf, views[i])
  {
    if i > 0 {
      DedupGuardsIndex(hashOf, views, offers, i - 1);
      if offers[i - 1].Some? {
        OfferKeepsSane(hashOf, views[i - 1], offers[i - 1].value, views[i]);
      } else {
        assert Keeps(views[i - 1], views[i]);
        hide IndexOk;
      }
    }
  }

  class Cache {
    const maxSize: int
    const policy: Policy
    const ttl: Option<int>
    const enableDedup: bool
    var cache: map<string, Entry>
    var order: seq<string>
    var index: map<Symbol, set<string>>
    var seen: seq<string>
    var hits: nat
    var misses: nat
    var dedupHits: nat
    var inserts: nat
    var accessCounter: nat
    ghost var touches: seq<string>
    ghost var latest: int

    function Contents(): Store
      reads this
    {
      Store(cache, order, index)
    }

    /** The cache as the histories above see it. */
    function Look(): View
      reads this
    {
      View(Contents(), seen)
    }

    ghost predicate Core()
      reads this
    {
      && OrderOk(cache, order)
      && TouchesOk(cache, touches, latest) && accessCounter == |touches|
      && |cache| <= (if maxSize < 1 then 1 else maxSize)
      && |seen| <= DEDUP_WINDOW
    }

    ghost predicate Valid()
      reads this
    {
      Core() && IndexOk(cache, index)
    }

    constructor (maxSize: int, policy: Policy, ttl: Option<int>, enableDedup: bool)
      ensures Valid() && Contents() == Store(map[], [], map[]) && seen == [] && touches == [] && latest == 0
      ensures hits == misses == dedupHits == inserts == 0
      ensures this.maxSize == maxSize && this.policy == policy && this.ttl == ttl && this.enableDedup == enableDedup
    {
      this.maxSize, this.policy, this.ttl, this.enableDedup := maxSize, policy, ttl, enableDedup;
      cache, order, index, seen := map[], [], map[], [];
      hits, misses, dedupHits, inserts, accessCounter := 0, 0, 0, 0, 0;
      touches, latest := [], 0;
    }

    /** A hash among the last remembered ones is a duplicate; a new one is
        remembered, the oldest being forgotten when the window is full. */
    method IsDuplicate(d: Datum) returns (duplicate: bool)
      requires |seen| <= DEDUP_WINDOW
      modifies this`seen
      ensures duplicate == (enableDedup && d.hash in old(seen))
      ensures seen == if enableDedup then Remember(old(seen), d.hash) else old(seen)
    {
      if !enableDedup {
        return false;
      }
      if d.hash in seen {
        return true;
      }
      if |seen| == DEDUP_WINDOW {
        seen := seen[1..];
      }
      seen := seen + [d.hash];
      return false;
    }

    /** The first key that is minimal under the policy's comparison. */
    method FindMinimal(ranking: Policy) returns (key: string)
      requires OrderOk(cache, order) && order != []
      ensures exists i: nat :: i < |order| && order[i] == key && FirstMinimal(Contents(), ranking, i)
    {
      var i, best := 1, 0;
      while i < |order|
        invariant 0 <= best < i <= |order|
        invariant forall j :: 0 <= j < best ==> Precedes(ranking, cache[order[best]], cache[order[j]])
        invariant forall j :: best < j < i ==> !Precedes(ranking, cache[order[j]], cache[order[best]])
      {
        if Precedes(ranking, cache[order[i]], cache[order[best]]) {
          best := i;
        }
        i := i + 1;
      }
      assert FirstMinimal(Contents(), ranking, best);
      key := order[best];
    }

    /** The first expired key, if the cache has one. */
    method FindExpired(now: int) returns (key: Option<string>)
      requires OrderOk(cache, order)
      ensures key.None? ==> forall j :: 0 <= j < |order| ==> !Expired(cache[order[j]], ttl, now)
      ensures key.Some? ==>
                exists i: nat ::
                  && i < |order| && order[i] == key.value && Expired(cache[order[i]], ttl, now)
                  && forall j :: 0 <= j < i ==> !Expired(cache[order[j]], ttl, now)
    {
      var i := 0;
      while i < |order|
        invariant 0 <= i <= |order|
        invariant forall j :: 0 <= j < i ==> !Expired(cache[order[j]], ttl, now)
      {
        if Expired(cache[order[i]], ttl, now) {
          return Some(order[i]);
        }
        i := i + 1;
      }
      return None;
    }

    /** Removes the policy's victim, if there is anything to remove. Under LRU
        that entry is no more recently touched than any other. */
    method EvictEntry(now: int) returns (ghost victim: Option<string>)
      requires Valid()
      modifies this`cache, this`order, this`index
      ensures Valid()
      ensures victim.None? <==> old(cache) == map[]
      ensures victim.None? ==> Contents() == old(Contents())
      ensures victim.Some? ==>
                && IsVictim(old(Contents()), policy, ttl, now, victim.value)
                && victim.value in old(cache) && old(cache)[victim.value].data.symbol in old(index)
                && Contents() == Remove(old(Contents()), victim.value) && |cache| == |old(cache)| - 1
                && (policy == LRU ==> LeastRecent(old(cache), touches, victim.value))
    {
      hide OrderOk, TouchesOk, LeastRecent, IndexOk, IsVictim, Remove;
      if |cache| == 0 {
        return None;
      }
      var key := ChooseVictim(now);
      if policy == LRU {
        LruVictim(key);
      }
      InIndex(Contents(), key);
      DropKeepsOrder(cache, order, key);
      RemoveKeepsIndex(Contents(), key);
      ghost var before := cache;
      DropKey(key);
      FewerTouches(before, cache, touches, latest);
      victim := Some(key);
    }

    /** Takes one key out of the cache, its order and its symbol's group. */
    method DropKey(key: string)
      requires key in cache && cache[key].data.symbol in index
      modifies this`cache, this`order, this`index
      ensures Contents() == Remove(old(Contents()), key)
      ensures cache == old(cache) - {key} && order == Without(old(order), key)
    {
      var y := cache[key].data.symbol;
      cache := cache - {key};
      order := Without(order, key);
      index := index[y := index[y] - {key}];
      if index[y] == {} {
        index := index - {y};
      }
      assert index == Remove(old(Contents()), key).index;
    }

    /** The key that the policy picks from a cache that is not empty. */
    method ChooseVictim(now: int) returns (key: string)
      requires OrderOk(cache, order) && cache != map[]
      ensures IsVictim(Contents(), policy, ttl, now, key) && key in cache
      ensures policy == LRU ==>
                exists i: nat :: i < |order| && order[i] == key && FirstMinimal(Contents(), LRU, i)
    {
      NotEmpty(Contents());
      if policy == LRU || policy == FIFO {
        key := FindMinimal(policy);
      } else if policy == TTL {
        var expired := FindExpired(now);
        if expired.Some? {
          key := expired.value;
        } else {
          key := FindMinimal(TTL);
        }
      } else {
        key := order[0];
        assert FirstMinimal(Contents(), COUNT, 0);
      }
    }

    lemma LruVictim(key: string)
      requires OrderOk(cache, order) && TouchesOk(cache, touches, latest)
      requires exists i: nat :: i < |order| && order[i] == key && FirstMinimal(Contents(), LRU, i)
      ensures LeastRecent(cache, touches, key)
    {
      var i: nat :| i < |order| && order[i] == key && FirstMinimal(Contents(), LRU, i);
      forall k | k in cache
        ensures cache[key].accessSeq <= cache[k].accessSeq
      {
        var j :| 0 <= j < |order| && order[j] == k;
        assert LastTouch(touches, k, cache[k].accessSeq) && LastTouch(touches, key, cache[key].accessSeq);
      }
      SmallestIsLeastRecent(cache, touches, latest, key);
    }

    /** Adds a datum unless it is a duplicate. A full cache evicts first, even
        when the key is already there. The index stays correct exactly when the
        key is not taken by an entry of another symbol. */
    method Put(d: Datum, now: int) returns (stored: bool, ghost evicted: Option<string>)
      requires Valid() && now >= latest
      modifies this
      ensures Core() && latest <= now
      ensures stored == !(enableDedup && d.hash in old(seen))
      ensures seen == if enableDedup then Remember(old(seen), d.hash) else old(seen)
      ensures enableDedup ==> Offers(old(Look()), d, Look())
      ensures !stored ==> Contents() == old(Contents()) && dedupHits == old(dedupHits) + 1
                          && inserts == old(inserts) && evicted == None && Valid()
      ensures evicted.Some? ==> IsVictim(old(Contents()), policy, ttl, now, evicted.value)
                                && evicted.value in old(cache) && old(cache)[evicted.value].data.symbol in old(index)
                                && (policy == LRU ==> LeastRecent(old(cache), old(touches), evicted.value))
      ensures stored ==>
                && (evicted.Some? <==> |old(cache)| >= maxSize && old(cache) != map[])
                && inserts == old(inserts) + 1 && dedupHits == old(dedupHits)
                && touches == old(touches) + [d.key] && latest == now
                && var room := if evicted.Some? then Remove(old(Contents()), evicted.value) else old(Contents());
                   && Contents() == Insert(room, Entry(d, now, now, old(accessCounter) + 1))
                   && (Valid() <==> (d.key in room.cache ==> room.cache[d.key].data.symbol == d.symbol))
    {
      hide OrderOk, TouchesOk, LeastRecent, IndexOk, IsVictim, Remove, Insert, Keeps, Offers;
      evicted := None;
      ghost var before := Look();
      var duplicate := IsDuplicate(d);
      if duplicate {
        dedupHits := dedupHits + 1;
        RefusedOffer(before, d);
        return false, None;
      }
      evicted := MakeRoom(now);
      ghost var room := View(Contents(), before.seen);
      StoreEntry(d, now);
      if enableDedup {
        StoredOffer(before, room, Entry(d, now, now, old(accessCounter) + 1), Look());
      }
      stored := true;
    }

    /** A full cache gives up its policy's victim. */
    method MakeRoom(now: int) returns (ghost evicted: Option<string>)
      requires Valid()
      modifies this`cache, this`order, this`index
      ensures Valid() && (|cache| < maxSize || cache == map[])
      ensures evicted.Some? <==> |old(cache)| >= maxSize && old(cache) != map[]
      ensures evicted.Some? ==> IsVictim(old(Contents()), policy, ttl, now, evicted.value)
                                && evicted.value in old(cache) && old(cache)[evicted.value].data.symbol in old(index)
                                && (policy == LRU ==> LeastRecent(old(cache), touches, evicted.value))
      ensures Contents() == if evicted.Some? then Remove(old(Contents()), evicted.value) else old(Contents())
      ensures forall remembered: seq<string> :: Keeps(View(old(Contents()), remembered), View(Contents(), remembered))
    {
      hide OrderOk, TouchesOk, LeastRecent, IndexOk, IsVictim, Remove, Keeps;
      evicted := None;
      assert |cache| == 0 ==> cache == map[];
      if |cache| >= maxSize {
        evicted := EvictEntry(now);
      }
      forall remembered: seq<string>
        ensures Keeps(View(old(Contents()), remembered), View(Contents(), remembered))
      {
        if evicted.Some? {
          RemoveKeeps(old(Contents()), evicted.value, remembered);
        } else {
          KeepsItself(View(Contents(), remembered));
        }
      }
    }

    /** Stores a datum for which there is room. */
    method StoreEntry(d: Datum, now: int)
      requires Valid() && now >= latest && (|cache| < maxSize || cache == map[])
      modifies this`cache, this`order, this`index, this`inserts, this`accessCounter, this`touches, this`latest
      ensures Core()
      ensures Contents() == Insert(old(Contents()), Entry(d, now, now, old(accessCounter) + 1))
      ensures Valid() <==> (d.key in old(cache) ==> old(cache)[d.key].data.symbol == d.symbol)
      ensures inserts == old(inserts) + 1 && accessCounter == old(accessCounter) + 1
      ensures touches == old(touches) + [d.key] && latest == now
    {
      hide OrderOk, TouchesOk, IndexOk, Insert;
      ghost var before := Contents();
      accessCounter := accessCounter + 1;
      var entry := Entry(d, now, now, accessCounter);
      InsertKeepsOrder(before, entry);
      InsertKeepsIndexIff(before, entry);
      TouchKeeps(cache, touches, latest, d.key, entry, now);
      Link(entry);
      inserts := inserts + 1;
      touches, latest := touches + [d.key], now;
    }

    /** Puts an entry under its key and into the group of its symbol; a key that
        is there already keeps its place in the order. */
    method Link(entry: Entry)
      modifies this`cache, this`order, this`index
      ensures Contents() == Insert(old(Contents()), entry)
      ensures cache == old(cache)[entry.data.key := entry]
    {
      var d := entry.data;
      if d.key !in cache {
        order := order + [d.key];
      }
      cache := cache[d.key := entry];
      index := index[d.symbol := (if d.symbol in index then index[d.symbol] else {}) + {d.key}];
    }

    /** A hit: the entry becomes the most recently touched one. */
    method Touch(key: string, now: int)
      requires Valid() && now >= latest && key in cache
      modifies this`cache, this`accessCounter, this`touches, this`latest
      ensures Valid()
      ensures cache == old(cache)[key := old(cache)[key].(lastAccess := now, accessSeq := old(accessCounter) + 1)]
      ensures accessCounter == old(accessCounter) + 1 && touches == old(touches) + [key] && latest == now
    {
      hide OrderOk, TouchesOk, IndexOk;
      ghost var before := Contents();
      accessCounter := accessCounter + 1;
      var entry := cache[key].(lastAccess := now, accessSeq := accessCounter);
      TouchKeeps(cache, touches, latest, key, entry, now);
      SizeAfterInsert(cache, key, entry);
      cache := cache[key := entry];
      touches, latest := touches + [key], now;
      SameDataKeeps(before, Contents());
    }

    /** All fresh entries of a symbol since a time, sorted by time: what a scan of
        the whole cache would find, each entry once. Exactly these entries count
        as touched. */
    method Get(symbol: Symbol, since: Option<int>, now: int) returns (results: seq<Datum>)
      requires Valid() && now >= latest
      modifies this`cache, this`accessCounter, this`touches, this`latest, this`hits, this`misses
      ensures Valid() && latest <= now
      ensures ByTime(results)
      ensures var m := Matches(old(Contents()), symbol, since, ttl, now);
              && (forall d :: multiset(results)[d] == Occurs(old(cache), m, d))
              && |results| == |m|
              && Touched(old(cache), cache, m, old(accessCounter), now)
      ensures Keeps(old(Look()), Look())
      ensures hits == old(hits) + |results|
      ensures misses == old(misses) + if results == [] then 1 else 0
    {
      hide OrderOk, TouchesOk, IndexOk, Matches, Occurs, Touched, Keeps;
      KeepsItself(Look());
      ghost var m := Matches(Contents(), symbol, since, ttl, now);
      GroupMatches(Contents(), symbol, since, ttl, now);
      GatheredNone(cache, accessCounter, now);
      GatheredMeans(cache, cache, {}, [], accessCounter, now);
      results := [];
      if symbol !in index {
        misses := misses + 1;
        return;
      }
      results := Collect(index[symbol], since, now, m);
      TouchedKeeps(old(Contents()), cache, m, old(accessCounter), now, seen);
      SortedByTime(results);
      results := SortBy(results, TimeOf);
      if |results| == 0 {
        misses := misses + 1;
      }
    }

    /** Visits the keys of a group and gathers the data of the wanted entries. */
    method Collect(group: set<string>, since: Option<int>, now: int, ghost m: set<string>) returns (results: seq<Datum>)
      requires Valid() && now >= latest && group <= cache.Keys && m <= group
      requires forall k :: k in group ==> (k in m <==> Wanted(cache[k], since, ttl, now))
      modifies this`cache, this`accessCounter, this`touches, this`latest, this`hits
      ensures Valid() && latest <= now
      ensures forall d :: multiset(results)[d] == Occurs(old(cache), m, d)
      ensures |results| == |m| && hits == old(hits) + |results|
      ensures Touched(old(cache), cache, m, old(accessCounter), now)
    {
      hide OrderOk, TouchesOk, IndexOk, Gathered, Wanted;
      GatheredNone(cache, accessCounter, now);
      results := [];
      var todo := group;
      assert m - todo == {};
      while todo != {}
        invariant Valid() && now >= latest && todo <= group
        invariant hits == old(hits) + |results| && accessCounter >= old(accessCounter)
        invariant Gathered(old(cache), cache, m - todo, results, old(accessCounter), now)
        decreases todo
      {
        var key :| key in todo;
        ghost var before, entries := m - todo, cache;
        todo := todo - {key};
        GatheredHas(old(cache), cache, before, results, old(accessCounter), now, key);
        var hit := Visit(key, since, now);
        if hit.Some? {
          assert m - todo == before + {key};
          GatheredOne(old(cache), entries, cache, before, results, old(accessCounter), now, key);
          results := results + [hit.value];
        } else {
          assert m - todo == before;
        }
      }
      assert m - todo == m;
      GatheredMeans(old(cache), cache, m, results, old(accessCounter), now);
    }

    /** One key of a look-up: a fresh entry that is not too old is touched. */
    method Visit(key: string, since: Option<int>, now: int) returns (hit: Option<Datum>)
      requires Valid() && now >= latest && key in cache
      modifies this`cache, this`accessCounter, this`touches, this`latest, this`hits
      ensures Valid() && now >= latest
      ensures hit == if Wanted(old(cache)[key], since, ttl, now) then Some(old(cache)[key].data) else None
      ensures hit.Some? ==>
                && hit.value.key == key && hits == old(hits) + 1
                && cache == old(cache)[key := old(cache)[key].(lastAccess := now, accessSeq := old(accessCounter) + 1)]
                && accessCounter == old(accessCounter) + 1
      ensures hit.None? ==> cache == old(cache) && hits == old(hits) && accessCounter == old(accessCounter)
    {
      hide OrderOk, TouchesOk, IndexOk;
      var entry := cache[key];
      if Expired(entry, ttl, now) {
        return None;
      }
      if since.Some? && entry.data.time < since.value {
        return None;
      }
      KeyOfEntry(cache, order, key);
      Touch(key, now);
      hits := hits + 1;
      return Some(entry.data);
    }

    /** The latest fresh datum of a symbol, if there is one; only its entry counts
        as touched. */
    method GetLatest(symbol: Symbol, now: int) returns (result: Option<Datum>)
      requires Valid() && now >= latest
      modifies this`cache, this`accessCounter, this`touches, this`latest, this`hits, this`misses
      ensures Valid() && latest <= now
      ensures var m := Matches(old(Contents()), symbol, None, ttl, now);
              && (result.None? <==> m == {})
              && (result.Some? ==>
                    && result.value.key in m && old(cache)[result.value.key].data == result.value
                    && (forall k :: k in m ==> old(cache)[k].data.time <= result.value.time)
                    && Touched(old(cache), cache, {result.value.key}, old(accessCounter), now))
      ensures Keeps(old(Look()), Look())
      ensures result.None? ==> Contents() == old(Contents()) && misses == old(misses) + 1 && hits == old(hits)
      ensures result.Some? ==> hits == old(hits) + 1 && misses == old(misses)
    {
      hide OrderOk, TouchesOk, IndexOk, Matches;
      GroupMatches(Contents(), symbol, None, ttl, now);
      if symbol !in index {
        misses := misses + 1;
        return None;
      }
      var best := FindLatest(symbol, now);
      if best.Some? {
        KeyOfEntry(cache, order, best.value);
        result := Some(cache[best.value].data);
        Touch(best.value, now);
        hits := hits + 1;
      } else {
        misses := misses + 1;
        result := None;
      }
    }

    /** The key of a latest fresh entry in the group of a symbol. */
    method FindLatest(symbol: Symbol, now: int) returns (best: Option<string>)
      requires Valid() && symbol in index
      ensures var m := Matches(Contents(), symbol, None, ttl, now);
              && (best.None? <==> m == {})
              && (best.Some? ==>
                    && best.value in m
                    && forall k :: k in m ==> cache[k].data.time <= cache[best.value].data.time)
    {
      hide OrderOk, TouchesOk, IndexOk, Core;
      ghost var m := Matches(Contents(), symbol, None, ttl, now);
      GroupMatches(Contents(), symbol, None, ttl, now);
      var todo := index[symbol];
      assert m - todo == {};
      best := None;
      while todo != {}
        invariant todo <= index[symbol]
        invariant best.None? ==> m - todo == {}
        invariant best.Some? ==> best.value in m - todo
        invariant best.Some? ==> forall k :: k in m - todo ==> cache[k].data.time <= cache[best.value].data.time
        decreases todo
      {
        var key :| key in todo;
        ghost var before := m - todo;
        todo := todo - {key};
        if Expired(cache[key], ttl, now) {
          assert m - todo == before;
        } else {
          assert m - todo == before + {key};
          if best.None? || cache[key].data.time > cache[best.value].data.time {
            best := Some(key);
          }
        }
      }
      assert m - todo == m;
    }

    /** Removes exactly the entries of one symbol, and its group. */
    method ClearSymbol(symbol: Symbol) returns (removed: nat)
      requires Valid()
      modifies this`cache, this`order, this`index
      ensures Valid()
      ensures cache == old(cache) - OfSymbol(old(cache), symbol)
      ensures index == old(index) - {symbol}
      ensures Keeps(old(Look()), Look())
      ensures removed == |OfSymbol(old(cache), symbol)|
    {
      hide OrderOk, TouchesOk, IndexOk, OfSymbol;
      removed := 0;
      ghost var all, group := cache, OfSymbol(cache, symbol);
      GroupIsSymbol(Contents(), symbol);
      ClearedIndex(cache, index, symbol);
      if symbol !in index {
        assert all - group == all && index - {symbol} == index;
        return;
      }
      removed := DropEntries(index[symbol]);
      ForgetSymbol(symbol, all);
    }

    /** Deletes a set of keys one by one from the cache, not from the index. */
    method DropEntries(keys: set<string>) returns (removed: nat)
      requires Core() && keys <= cache.Keys
      modifies this`cache, this`order
      ensures Core() && cache == old(cache) - keys && removed == |keys|
    {
      hide OrderOk, TouchesOk;
      removed := 0;
      ghost var all := cache;
      var todo := keys;
      assert keys - todo == {} && all - {} == all;
      while todo != {}
        invariant todo <= keys && Core()
        invariant cache == all - (keys - todo)
        invariant removed == |keys - todo|
        decreases todo
      {
        var key :| key in todo;
        OneFewer(all, keys, todo, key);
        DropEntry(key);
        todo := todo - {key};
        removed := removed + 1;
      }
      assert keys - todo == keys;
    }

    /** Drops the group of a symbol whose entries are gone. */
    method ForgetSymbol(symbol: Symbol, ghost all: map<string, Entry>)
      requires Core() && IndexOk(all, index) && cache == all - OfSymbol(all, symbol)
      modifies this`index
      ensures Valid() && index == old(index) - {symbol}
    {
      hide OrderOk, TouchesOk, IndexOk, OfSymbol;
      ClearedIndex(all, index, symbol);
      index := index - {symbol};
    }

    /** Deletes one key from the cache but not from the index. */
    method DropEntry(key: string)
      requires Core() && key in cache
      modifies this`cache, this`order
      ensures Core() && cache == old(cache) - {key}
    {
      hide OrderOk, TouchesOk, Without;
      DropKeepsOrder(cache, order, key);
      FewerTouches(cache, cache - {key}, touches, latest);
      cache := cache - {key};
      order := Without(order, key);
    }

    /** Removes exactly the expired entries. Their symbols may keep an empty
        group in the index. */
    method CleanupExpired(now: int) returns (removed: nat)
      requires Valid()
      modifies this`cache, this`order, this`index
      ensures Valid()
      ensures cache == old(cache) - ExpiredKeys(old(cache), ttl, now)
      ensures removed == |ExpiredKeys(old(cache), ttl, now)|
      ensures Keeps(old(Look()), Look())
      ensures index.Keys == old(index.Keys)
    {
      hide OrderOk, TouchesOk, IndexOk, ExpiredKeys, Core;
      ghost var before, all := cache, ExpiredKeys(cache, ttl, now);
      ExpiredAreKeys(cache, ttl, now);
      removed := 0;
      assert before - {} == before;
      if ttl.None? || ttl.value == 0 {
        NothingExpires(cache, ttl, now);
        return;
      }
      var todo := ExpiredKeys(cache, ttl, now);
      assert all - todo == {};
      while todo != {}
        invariant todo <= all && Valid() && index.Keys == old(index.Keys)
        invariant cache == before - (all - todo)
        invariant removed == |all - todo|
        decreases todo
      {
        var key :| key in todo;
        OneFewer(before, all, todo, key);
        DiscardEntry(key);
        todo := todo - {key};
        removed := removed + 1;
      }
      assert all - todo == all;
    }

    /** Deletes a key and discards it from its symbol's group. */
    method DiscardEntry(key: string)
      requires Valid() && key in cache
      modifies this`cache, this`order, this`index
      ensures Valid() && cache == old(cache) - {key} && index.Keys == old(index.Keys)
    {
      hide OrderOk, TouchesOk, IndexOk;
      var y := cache[key].data.symbol;
      DiscardKeepsIndex(cache, index, key);
      DropEntry(key);
      index := index[y := index[y] - {key}];
    }

    /** Forgets all entries and all remembered hashes. */
    method Clear()
      modifies this`cache, this`order, this`index, this`seen
      requires Core()
      ensures Valid() && cache == map[] && index == map[] && seen == []
    {
      cache, order, index, seen := map[], [], map[], [];
    }
  }

  /** Looking only at the symbol's group misses nothing. */
  lemma GroupMatches(s: Store, symbol: Symbol, since: Option<int>, ttl: Option<int>, now: int)
    requires IndexOk(s.cache, s.index)
    ensures symbol !in s.index ==> Matches(s, symbol, since, ttl, now) == {}
    ensures symbol in s.index ==>
              && Matches(s, symbol, since, ttl, now) <= s.index[symbol]
              && forall k :: k in s.index[symbol] ==>
                   && k in s.cache
                   && (k in Matches(s, symbol, since, ttl, now) <==> Wanted(s.cache[k], since, ttl, now))
  {
  }

  function OfSymbol(cache: map<string, Entry>, symbol: Symbol): set<string> {
    set k | k in cache && cache[k].data.symbol == symbol
  }

  lemma OneFewer(entries: map<string, Entry>, all: set<string>, todo: set<string>, key: string)
    requires key in todo && todo <= all && all <= entries.Keys
    ensures key in entries - (all - todo)
    ensures entries - (all - todo) - {key} == entries - (all - (todo - {key}))
    ensures |all - (todo - {key})| == |all - todo| + 1
  {
    assert all - (todo - {key}) == (all - todo) + {key};
  }

  lemma GroupIsSymbol(s: Store, symbol: Symbol)
    requires IndexOk(s.cache, s.index)
    ensures OfSymbol(s.cache, symbol) <= s.cache.Keys
    ensures OfSymbol(s.cache, symbol) == if symbol in s.index then s.index[symbol] else {}
  {
  }

  lemma ClearedIndex(cache: map<string, Entry>, index: map<Symbol, set<string>>, symbol: Symbol)
    requires IndexOk(cache, index)
    ensures IndexOk(cache - OfSymbol(cache, symbol), index - {symbol})
  {
  }

  lemma ExpiredAreKeys(cache: map<string, Entry>, ttl: Option<int>, now: int)
    ensures ExpiredKeys(cache, ttl, now) <= cache.Keys
  {
  }

  function ExpiredKeys(cache: map<string, Entry>, ttl: Option<int>, now: int): set<string> {
    set k | k in cache && Expired(cache[k], ttl, now)
  }

  lemma NothingExpires(cache: map<string, Entry>, ttl: Option<int>, now: int)
    requires ttl.None? || ttl.value == 0
    ensures ExpiredKeys(cache, ttl, now) == {}
  {
    assert forall k :: k in cache ==> !Expired(cache[k], ttl, now);
  }

  /** The entries of `keys`, and no others, have been touched since. */
  ghost predicate Touched(before: map<string, Entry>, after: map<string, Entry>, keys: set<string>, count: nat, now: int) {
    && after.Keys == before.Keys
    && forall k :: k in after ==>
         if k in keys
         then after[k] == before[k].(lastAccess := now, accessSeq := after[k].accessSeq) && after[k].accessSeq > count
         else after[k] == before[k]
  }

  /** The data of `keys` have been collected, and their entries touched. */
  ghost predicate Gathered(before: map<string, Entry>, after: map<string, Entry>, keys: set<string>,
                           results: seq<Datum>, count: nat, now: int) {
    && Touched(before, after, keys, count, now)
    && |results| == |keys|
    && forall d :: multiset(results)[d] == Occurs(before, keys, d)
  }

  lemma GatheredMeans(before: map<string, Entry>, after: map<string, Entry>, keys: set<string>,
                      results: seq<Datum>, count: nat, now: int)
    requires Gathered(before, after, keys, results, count, now)
    ensures Touched(before, after, keys, count, now) && |results| == |keys|
    ensures forall d :: multiset(results)[d] == Occurs(before, keys, d)
  {
  }

  lemma GatheredNone(cache: map<string, Entry>, count: nat, now: int)
    ensures Gathered(cache, cache, {}, [], count, now)
  {
  }

  lemma GatheredHas(before: map<string, Entry>, after: map<string, Entry>, keys: set<string>,
                    results: seq<Datum>, count: nat, now: int, k: string)
    requires Gathered(before, after, keys, results, count, now) && k in before && k !in keys
    ensures k in after && after[k] == before[k]
  {
  }

  lemma GatheredOne(before: map<string, Entry>, entries: map<string, Entry>, after: map<string, Entry>,
                    keys: set<string>, results: seq<Datum>, count: nat, now: int, k: string)
    requires Gathered(before, entries, keys, results, count, now) && k in before && k !in keys
    requires k in after && after == entries[k := before[k].(lastAccess := now, accessSeq := after[k].accessSeq)]
    requires after[k].accessSeq > count && before[k].data.key == k
    ensures Gathered(before, after, keys + {k}, results + [before[k].data], count, now)
  {
    assert multiset(results + [before[k].data]) == multiset(results) + multiset{before[k].data};
  }

  /** Touching changes neither the order nor what the index must say. */
  lemma SameDataKeeps(a: Store, b: Store)
    requires OrderOk(a.cache, a.order) && IndexOk(a.cache, a.index)
    requires a.order == b.order && a.index == b.index && a.cache.Keys == b.cache.Keys
    requires forall k :: k in a.cache ==> b.cache[k].data == a.cache[k].data
    ensures OrderOk(b.cache, b.order) && IndexOk(b.cache, b.index)
  {
    hide NoRepeats;
    assert forall k :: k in a.cache <==> k in b.cache;
  }

  lemma KeyOfEntry(cache: map<string, Entry>, order: seq<string>, k: string)
    requires OrderOk(cache, order) && k in cache
    ensures cache[k].data.key == k
  {
  }

  // ------------------------------------------------------- stored and found

  lemma InResults(results: seq<Datum>, d: Datum)
    ensures d in results <==> multiset(results)[d] > 0
  {
    assert d in results <==> d in multiset(results);
  }

  /** Stores a new datum under a key that no other symbol holds. */
  method StoreNew(c: Cache, d: Datum, t: int)
    requires c.Valid() && c.latest <= t
    requires d.key in c.cache ==> c.cache[d.key].data.symbol == d.symbol
    requires c.enableDedup ==> d.hash !in c.seen
    modifies c
    ensures c.Valid() && c.latest == t
    ensures d.key in c.cache && c.cache[d.key].data == d && c.cache[d.key].stored == t
  {
    hide OrderOk, TouchesOk, IndexOk, Offers, Keeps, IsVictim, LeastRecent, Without;
    var stored, evicted := c.Put(d, t);
  }

  /** An entry that has not outlived its time, however that is told. */
  lemma FreshMatches(c: Cache, d: Datum, t: int, since: Option<int>, u: int)
    requires d.key in c.cache && c.cache[d.key].data == d && c.cache[d.key].stored == t
    ensures d.key in Matches(c.Contents(), d.symbol, since, c.ttl, u)
            <==> (c.ttl.None? || c.ttl.value == 0 || u <= t + c.ttl.value) && (since.None? || since.value <= d.time)
  {
  }

  /** What has been stored is found again exactly until its time to live has
      passed, by look-ups that reach back far enough; without a time to live, or
      with one of zero, for good. */
  method StoredIsFound(c: Cache, d: Datum, t: int, since: Option<int>, u: int) returns (found: bool)
    requires c.Valid() && c.latest <= t <= u
    requires d.key in c.cache ==> c.cache[d.key].data.symbol == d.symbol
    requires c.enableDedup ==> d.hash !in c.seen
    modifies c
    ensures c.Valid()
    ensures found <==> && (c.ttl.None? || c.ttl.value == 0 || u <= t + c.ttl.value)
                       && (since.None? || since.value <= d.time)
  {
    hide OrderOk, TouchesOk, IndexOk, Keeps, Touched, Matches;
    StoreNew(c, d, t);
    FreshMatches(c, d, t, since, u);
    ghost var m, entries := Matches(c.Contents(), d.symbol, since, c.ttl, u), c.cache;
    var results := c.Get(d.symbol, since, u);
    assert multiset(results)[d] == Occurs(entries, m, d);
    InResults(results, d);
    found := d in results;
  }

  /** And until then the symbol's latest datum is at least as recent. */
  method StoredBoundsLatest(c: Cache, d: Datum, t: int, u: int) returns (result: Option<Datum>)
    requires c.Valid() && c.latest <= t <= u
    requires d.key in c.cache ==> c.cache[d.key].data.symbol == d.symbol
    requires c.enableDedup ==> d.hash !in c.seen
    modifies c
    ensures c.ttl.None? || c.ttl.value == 0 || u <= t + c.ttl.value ==>
              result.Some? && result.value.symbol == d.symbol && result.value.time >= d.time
  {
    hide OrderOk, TouchesOk, IndexOk, Keeps, Touched;
    StoreNew(c, d, t);
    FreshMatches(c, d, t, None, u);
    result := c.GetLatest(d.symbol, u);
  }

  // -------------------------------------------------------- a collision of keys

  /** Two symbols of one ticker can share a key. Without duplicate suppression a
      fresh cache that stores both has a wrong index. */
  method CollisionUnguarded(a: Datum, b: Datum) returns (c: Cache)
    requires a.key == b.key && a.symbol != b.symbol
    ensures fresh(c) && !c.enableDedup && !c.Valid()
    ensures c.cache.Keys == {a.key} && a.symbol in c.index && a.key in c.index[a.symbol] && c.cache[a.key].data == b
  {
    hide OrderOk, TouchesOk, Offers, Keeps, IsVictim, LeastRecent, Remove;
    c := new Cache(10, LRU, None, false);
    var first, none := c.Put(a, 0);
    var second, none' := c.Put(b, 0);
  }

  /** With it the second datum is refused, as long as the first one's hash is
      remembered. */
  method CollisionGuarded(a: Datum, b: Datum) returns (c: Cache, second: bool)
    requires a.key == b.key && a.symbol != b.symbol && a.hash == b.hash
    ensures fresh(c) && c.enableDedup && c.Valid() && !second && c.cache.Keys == {a.key} && c.cache[a.key].data == a
  {
    hide OrderOk, TouchesOk, Offers, Keeps, IsVictim, LeastRecent, Remove;
    c := new Cache(10, LRU, None, true);
    var first, none := c.Put(a, 0);
    var stored, none' := c.Put(b, 0);
    second := stored;
  }
}
