/**
 * The `keep-alive` component's cache: a map from cache key to the cached
 * component vnode plus a `keys` list ordered from least to most recently
 * rendered, with `include`/`exclude` name filters and an optional `max`
 * that evicts the least recently rendered entry.
 *
 * A destroyed component instance is recorded in `destroyLog`; the Vue
 * lifecycle that calls `created`, `destroyed`, `render` and the watchers is
 * outside the model, so each hook is a method the caller invokes.
 */
module KeepAlive {
  import opened Wrappers
  import opened Strings
  import opened VNodeHelpers

  /**
   * An `include`/`exclude` prop value: an array of names, a comma-separated
   * string, or some other value (neither array nor string nor RegExp).
   * RegExp patterns are not part of this model. `None` is `undefined`.
   */
  datatype Pattern = Names(names: seq<string>) | CommaList(list: string) | Other

  /** JavaScript truthiness of an optional string: defined and not empty. */
  predicate Truthy(s: Option<string>) {
    s.Some? && s.value != ""
  }

  /** Truthiness of a prop value: arrays and other objects are truthy, the empty string is not. */
  predicate PatternSet(p: Option<Pattern>) {
    p.Some? && !(p.value.CommaList? && p.value.list == "")
  }

  /** `matches(pattern, name)`; an undefined pattern matches nothing. */
  function Matches(pattern: Option<Pattern>, name: string): (r: bool)
    ensures pattern.None? || pattern.value.Other? ==> !r
    ensures pattern.Some? && pattern.value.Names? ==> (r <==> name in pattern.value.names)
  {
    match pattern
    case None => false
    case Some(Names(names)) => name in names
    case Some(CommaList(list)) => name in Split(list, ',')
    case Some(Other) => false
  }

  /** A comma-separated list matches exactly the names it was joined from. */
  lemma CommaListMatchesItsNames(names: seq<string>, name: string)
    requires |names| >= 1
    requires forall k :: 0 <= k < |names| ==> ',' !in names[k]
    ensures Matches(Some(CommaList(Join(names, ","))), name) <==> name in names
  {
    SplitJoin(names, ',');
  }

  /** No name containing a comma matches a comma-separated list. */
  lemma CommaListNeverMatchesComma(list: string, name: string)
    requires ',' in name
    ensures !Matches(Some(CommaList(list)), name)
  {
  }

  /** `getComponentName`: the constructor's registered name if truthy, otherwise the tag. */
  function GetComponentName(opts: Option<ComponentOptions>): (r: Option<string>)
    ensures opts.None? ==> r.None?
    ensures opts.Some? && Truthy(opts.value.ctorName) ==> r == opts.value.ctorName
    ensures opts.Some? && !Truthy(opts.value.ctorName) ==> r == opts.value.tag
  {
    if opts.None? then None
    else if Truthy(opts.value.ctorName) then opts.value.ctorName
    else opts.value.tag
  }

  /** The render-time filter: not included (or unnamed while `include` is set), or excluded. */
  function Excluded(name: Option<string>, inc: Option<Pattern>, exc: Option<Pattern>): (r: bool)
    ensures !PatternSet(inc) && !Truthy(name) ==> !r
    ensures Truthy(name) && PatternSet(exc) && Matches(exc, name.value) ==> r
    ensures r ==> PatternSet(inc) || PatternSet(exc)
  {
    || (PatternSet(inc) && (!Truthy(name) || !Matches(inc, name.value)))
    || (PatternSet(exc) && Truthy(name) && Matches(exc, name.value))
  }

  /** How the filter treats unset props and unnamed components. */
  lemma ExcludedRules(name: Option<string>, inc: Option<Pattern>, exc: Option<Pattern>)
    ensures !PatternSet(inc) && !PatternSet(exc) ==> !Excluded(name, inc, exc)
    ensures PatternSet(inc) && !Truthy(name) ==> Excluded(name, inc, exc)
    ensures !PatternSet(inc) && !Truthy(name) ==> !Excluded(name, inc, exc)
    ensures Truthy(name) && PatternSet(exc) && Matches(exc, name.value) ==> Excluded(name, inc, exc)
  {
  }

  /** An include list keeps exactly the components it names. */
  lemma IncludeListIff(name: string, names: seq<string>)
    ensures !Excluded(Some(name), Some(Names(names)), None) <==> name != "" && name in names
  {
  }

  /**
   * The cache key: the vnode's own key when it has one, otherwise the
   * constructor's `cid` followed by `::tag` when the tag is truthy.
   */
  function CacheKey(vnode: VNode, opts: ComponentOptions): (r: string)
    ensures vnode.key.Some? ==> r == vnode.key.value
    ensures vnode.key.None? ==> r != "" && IsDigit(r[0])
    ensures vnode.key.None? && !Truthy(opts.tag) ==> forall i :: 0 <= i < |r| ==> IsDigit(r[i])
  {
    if vnode.key.Some? then vnode.key.value
    else NatToString(opts.cid) + (if Truthy(opts.tag) then "::" + opts.tag.value else "")
  }

  /** An explicit key is used as it is. */
  lemma ExplicitKeyWins(vnode: VNode, opts: ComponentOptions)
    requires vnode.key.Some?
    ensures CacheKey(vnode, opts) == vnode.key.value
  {
  }

  /**
   * Two keyless vnodes share a cache key only when they have the same `cid`
   * and the same truthy tag (or both lack one): the `::` suffix cannot be
   * confused with the digits of another `cid`.
   */
  lemma ImplicitKeyInjective(v1: VNode, o1: ComponentOptions, v2: VNode, o2: ComponentOptions)
    requires v1.key.None? && v2.key.None?
    requires CacheKey(v1, o1) == CacheKey(v2, o2)
    ensures o1.cid == o2.cid
    ensures Truthy(o1.tag) <==> Truthy(o2.tag)
    ensures Truthy(o1.tag) ==> o1.tag == o2.tag
  {
    var a, b := NatToString(o1.cid), NatToString(o2.cid);
    var s1 := if Truthy(o1.tag) then "::" + o1.tag.value else "";
    var s2 := if Truthy(o2.tag) then "::" + o2.tag.value else "";
    var k := CacheKey(v1, o1);
    assert k == a + s1 && k == b + s2;
    DigitRunOfNumeral(a, s1);
    DigitRunOfNumeral(b, s2);
    assert a == k[..|a|] == b;
    NatToStringInjective(o1.cid, o2.cid);
    assert s1 == k[|a|..] == s2;
    if Truthy(o1.tag) {
      assert s1[2..] == o1.tag.value;
    }
    if Truthy(o2.tag) {
      assert s2[2..] == o2.tag.value;
    }
  }

  /** The number of leading decimal digits of `k`. */
  function DigitRun(k: string): nat {
    if k != [] && IsDigit(k[0]) then 1 + DigitRun(k[1..]) else 0
  }

  /** A run of digits followed by nothing or by `:` is exactly the leading digit run. */
  lemma {:induction false} DigitRunOfNumeral(a: string, s: string)
    requires forall i :: 0 <= i < |a| ==> IsDigit(a[i])
    requires s == [] || s[0] == ':'
    ensures DigitRun(a + s) == |a|
  {
    if a != [] {
      assert (a + s)[1..] == a[1..] + s;
      DigitRunOfNumeral(a[1..], s);
    } else {
      assert a + s == s;
    }
  }

  /** No key occurs twice. */
  predicate NoDup(keys: seq<string>) {
    forall i, j :: 0 <= i < j < |keys| ==> keys[i] != keys[j]
  }

  /** `remove(keys, key)`: deletes the first occurrence of `key`, if any. */
  function Remove(keys: seq<string>, key: string): (r: seq<string>)
    ensures key !in keys ==> r == keys
    ensures key in keys ==> |r| == |keys| - 1
    ensures forall k :: k != key ==> (k in r <==> k in keys)
    ensures NoDup(keys) ==> NoDup(r) && key !in r
  {
    if keys == [] then []
    else if keys[0] == key then keys[1..]
    else
      var rest := Remove(keys[1..], key);
      assert NoDup(keys) ==> NoDup(keys[1..]) && keys[0] !in keys[1..] && keys[0] !in rest;
      [keys[0]] + rest
  }

  /** The subsequence of `keys` outside `drop`, order kept. */
  function Without(keys: seq<string>, drop: set<string>): (r: seq<string>)
    ensures forall k :: k in r <==> k in keys && k !in drop
  {
    if keys == [] then [] else (if keys[0] in drop then [] else [keys[0]]) + Without(keys[1..], drop)
  }

  /** Dropping a key that does not occur changes nothing. */
  lemma {:induction false} WithoutAbsent(keys: seq<string>, drop: set<string>, k: string)
    requires k !in keys
    ensures Without(keys, drop + {k}) == Without(keys, drop)
  {
    if keys != [] {
      WithoutAbsent(keys[1..], drop, k);
    }
  }

  /** Removing one more key from a duplicate-free list is filtering one more key out. */
  lemma {:induction false} RemoveWithout(keys: seq<string>, drop: set<string>, k: string)
    requires NoDup(keys)
    ensures Remove(Without(keys, drop), k) == Without(keys, drop + {k})
  {
    if keys != [] {
      var h, tail := keys[0], keys[1..];
      assert NoDup(tail);
      var w := Without(tail, drop);
      if h in drop {
        assert Without(keys, drop) == w;
        assert Without(keys, drop + {k}) == Without(tail, drop + {k});
        RemoveWithout(tail, drop, k);
      } else if h == k {
        assert Without(keys, drop) == [h] + w;
        assert Remove([h] + w, k) == w;
        assert Without(keys, drop + {k}) == Without(tail, drop + {k});
        assert k !in tail;
        WithoutAbsent(tail, drop, k);
      } else {
        assert Without(keys, drop) == [h] + w;
        assert Remove([h] + w, k) == [h] + Remove(w, k);
        assert Without(keys, drop + {k}) == [h] + Without(tail, drop + {k});
        RemoveWithout(tail, drop, k);
      }
    }
  }

  /** Filtering out every key that occurs leaves nothing. */
  lemma {:induction false} WithoutAll(keys: seq<string>, drop: set<string>)
    requires forall k :: k in keys ==> k in drop
    ensures Without(keys, drop) == []
  {
    if keys != [] {
      WithoutAll(keys[1..], drop);
    }
  }

  /** Moving a present key to the end keeps the length, the members and the absence of duplicates. */
  lemma MoveToEnd(keys: seq<string>, k: string)
    requires NoDup(keys) && k in keys
    ensures var moved := Remove(keys, k) + [k];
      && |moved| == |keys| && NoDup(moved) && moved[|moved| - 1] == k
      && forall x :: x in moved <==> x in keys
  {
  }

  /** `cache[key]` read as a vnode or a falsy value. */
  function Lookup(cache: map<string, Option<VNode>>, key: string): Option<VNode> {
    if key in cache then cache[key] else None
  }

  /** `pruneCacheEntry` destroys the cached instance when there is no current vnode or its tag differs. */
  predicate Destroys(cached: Option<VNode>, current: Option<VNode>) {
    cached.Some? && (current.None? || cached.value.tag != current.value.tag)
  }

  /**
   * `cached.componentInstance.$destroy()` on an entry with no instance:
   * reading `$destroy` of `undefined` raises a `TypeError`, and
   * `pruneCacheEntry` stops before it nulls the entry or removes the key.
   */
  predicate Throws(cached: Option<VNode>, current: Option<VNode>) {
    Destroys(cached, current) && cached.value.componentInstance.None?
  }

  /** The cache after nulling every entry whose key is in `drop`. */
  function Nulled(cache: map<string, Option<VNode>>, drop: set<string>): (r: map<string, Option<VNode>>)
    ensures r.Keys == cache.Keys
    ensures forall k :: k in r ==> r[k] == (if k in drop then None else cache[k])
  {
    map k | k in cache :: if k in drop then None else cache[k]
  }

  /** `slot && slot[0]`: the slot's first entry, if any. */
  function SlotHead(slot: Option<seq<Option<VNode>>>): Option<VNode> {
    if slot.Some? && |slot.value| > 0 then slot.value[0] else None
  }

  /** `render` returns the slot's component child untouched: there is none, it is an async placeholder, or the filter rejects it. */
  predicate Bypasses(vnode: Option<VNode>, inc: Option<Pattern>, exc: Option<Pattern>) {
    || vnode.None?
    || vnode.value.componentOptions.None?
    || Excluded(GetComponentName(vnode.value.componentOptions), inc, exc)
  }

  /** The entries `pruneCache` removes: non-null, named, and rejected by the filter. */
  predicate Prunable(cached: Option<VNode>, filter: string -> bool) {
    && cached.Some?
    && var name := GetComponentName(cached.value.componentOptions);
    Truthy(name) && !filter(name.value)
  }

  /** `Prunable` as a test on one entry. */
  function PrunableBy(filter: string -> bool): Option<VNode> -> bool {
    cached => Prunable(cached, filter)
  }

  /** The keys whose entry passes `select`. */
  function Selected(cache: map<string, Option<VNode>>, select: Option<VNode> -> bool): (r: set<string>)
    ensures r <= cache.Keys
  {
    set k | k in cache && select(cache[k])
  }

  /** One record of `componentInstance.$destroy()`: the key pruned and the vnode that was cached under it. */
  datatype Destruction = Destruction(key: string, node: VNode)

  /**
   * `log` extends `log0` with one record for each key of `drop` whose
   * entry in `cache0` is destroyed (in some order), and with nothing else.
   */
  ghost predicate LogsEach(log0: seq<Destruction>, log: seq<Destruction>, cache0: map<string, Option<VNode>>,
                           drop: set<string>, current: Option<VNode>)
  {
    && |log0| <= |log| && log[..|log0|] == log0
    && (forall i :: |log0| <= i < |log| ==>
          log[i].key in drop && log[i].key in cache0 && cache0[log[i].key] == Some(log[i].node)
          && Destroys(cache0[log[i].key], current))
    && (forall i, j :: |log0| <= i < j < |log| ==> log[i].key != log[j].key)
    && (forall k :: k in drop && k in cache0 && Destroys(cache0[k], current) ==>
          exists i :: |log0| <= i < |log| && log[i].key == k)
  }

  class KeepAliveCache {
    var cache: map<string, Option<VNode>>
    var keys: seq<string>
    var includePattern: Option<Pattern>
    var excludePattern: Option<Pattern>
    /** `max`: `None` when unset or falsy, otherwise the parsed bound. */
    var max: Option<nat>
    var destroyLog: seq<Destruction>

    /** `keys` lists, without duplicates, exactly the keys whose cache entry is non-null. */
    ghost predicate Valid()
      reads this
    {
      && NoDup(keys)
      && (forall k :: k in keys <==> k in cache && cache[k].Some?)
    }

    /** `created`: an empty cache and key list. */
    constructor (inc: Option<Pattern>, exc: Option<Pattern>, max: Option<nat>)
      ensures Valid()
      ensures cache == map[] && keys == [] && destroyLog == []
      ensures includePattern == inc && excludePattern == exc && this.max == max
    {
      cache := map[];
      keys := [];
      includePattern := inc;
      excludePattern := exc;
      this.max := max;
      destroyLog := [];
    }

    /**
     * `pruneCacheEntry(cache, key, keys, current)`. `ok` is false when the
     * `$destroy` call throws; the entry and `keys` are then left as they were.
     */
    method PruneCacheEntry(key: string, current: Option<VNode>) returns (ok: bool)
      requires Valid()
      modifies this
      ensures Valid()
      ensures includePattern == old(includePattern) && excludePattern == old(excludePattern) && max == old(max)
      ensures ok == !Throws(Lookup(old(cache), key), current)
      ensures !ok ==> cache == old(cache) && keys == old(keys) && destroyLog == old(destroyLog)
      ensures ok ==> cache == old(cache)[key := None]
      ensures ok ==> keys == Remove(old(keys), key)
      ensures ok ==>
        destroyLog == old(destroyLog) +
          (if Destroys(Lookup(old(cache), key), current) then [Destruction(key, Lookup(old(cache), key).value)] else [])
    {
      var cached := if key in cache then cache[key] else None;
      if cached.Some? && (current.None? || cached.value.tag != current.value.tag) {
        if cached.value.componentInstance.None? {
          return false;
        }
        destroyLog := destroyLog + [Destruction(key, cached.value)];
      }
      cache := cache[key := None];
      keys := Remove(keys, key);
      return true;
    }

    /**
     * `pruneCache(this, filter)`: visits every key of the cache and prunes
     * the non-null, named entries whose name `filter` rejects. `pruned` is
     * the set of keys pruned before the loop ended; `ok` is false when a
     * `$destroy` call threw and ended it early.
     */
    method PruneCache(filter: string -> bool, current: Option<VNode>) returns (ok: bool, ghost pruned: set<string>)
      requires Valid()
      modifies this
      ensures Valid()
      ensures includePattern == old(includePattern) && excludePattern == old(excludePattern) && max == old(max)
      ensures ok <==> forall k :: k in Selected(old(cache), PrunableBy(filter)) ==> !Throws(old(cache)[k], current)
      ensures ok ==> pruned == Selected(old(cache), PrunableBy(filter))
      ensures pruned <= Selected(old(cache), PrunableBy(filter))
      ensures cache == Nulled(old(cache), pruned)
      ensures keys == Without(old(keys), pruned)
      ensures LogsEach(old(destroyLog), destroyLog, old(cache), pruned, current)
    {
      ok, pruned := PruneEach(PrunableBy(filter), current);
    }

    /**
     * `destroyed`: prunes every key of the cache with no current vnode,
     * destroying every cached instance; `ok` is false when an entry had no
     * instance to destroy.
     */
    method Destroyed() returns (ok: bool, ghost pruned: set<string>)
      requires Valid()
      modifies this
      ensures Valid()
      ensures includePattern == old(includePattern) && excludePattern == old(excludePattern) && max == old(max)
      ensures ok <==> forall k :: k in old(cache) ==> !Throws(old(cache)[k], None)
      ensures ok ==> keys == [] && pruned == old(cache).Keys
      ensures cache.Keys == old(cache).Keys && (ok ==> forall k :: k in cache ==> cache[k].None?)
      ensures pruned <= old(cache).Keys
      ensures cache == Nulled(old(cache), pruned)
      ensures keys == Without(old(keys), pruned)
      ensures LogsEach(old(destroyLog), destroyLog, old(cache), pruned, None)
    {
      ghost var keys0 := keys;
      ghost var all := Selected(cache, _ => true);
      assert all == cache.Keys;
      ok, pruned := PruneEach(_ => true, None);
      if ok {
        WithoutAll(keys0, all);
      }
    }

    /** The `include` watcher: the prop takes `val`, then entries whose name `val` does not match are pruned. */
    method IncludeChanged(val: Option<Pattern>, current: Option<VNode>) returns (ok: bool, ghost pruned: set<string>)
      requires Valid()
      modifies this
      ensures Valid()
      ensures includePattern == val && excludePattern == old(excludePattern) && max == old(max)
      ensures ok <==> forall k :: k in Selected(old(cache), PrunableBy(name => Matches(val, name))) ==>
        !Throws(old(cache)[k], current)
      ensures ok ==> pruned == Selected(old(cache), PrunableBy(name => Matches(val, name)))
      ensures pruned <= Selected(old(cache), PrunableBy(name => Matches(val, name)))
      ensures cache == Nulled(old(cache), pruned)
      ensures keys == Without(old(keys), pruned)
      ensures LogsEach(old(destroyLog), destroyLog, old(cache), pruned, current)
    {
      includePattern := val;
      ok, pruned := PruneCache(name => Matches(val, name), current);
    }

    /** The `exclude` watcher: the prop takes `val`, then entries whose name `val` matches are pruned. */
    method ExcludeChanged(val: Option<Pattern>, current: Option<VNode>) returns (ok: bool, ghost pruned: set<string>)
      requires Valid()
      modifies this
      ensures Valid()
      ensures excludePattern == val && includePattern == old(includePattern) && max == old(max)
      ensures ok <==> forall k :: k in Selected(old(cache), PrunableBy(name => !Matches(val, name))) ==>
        !Throws(old(cache)[k], current)
      ensures ok ==> pruned == Selected(old(cache), PrunableBy(name => !Matches(val, name)))
      ensures pruned <= Selected(old(cache), PrunableBy(name => !Matches(val, name)))
      ensures cache == Nulled(old(cache), pruned)
      ensures keys == Without(old(keys), pruned)
      ensures LogsEach(old(destroyLog), destroyLog, old(cache), pruned, current)
    {
      excludePattern := val;
      ok, pruned := PruneCache(name => !Matches(val, name), current);
    }

    /**
     * The patch that mounts a rendered vnode sets its `componentInstance`.
     * The cache holds that very object, so the cached entry sees the
     * instance too; a key with no cached vnode is left alone.
     */
    method Mounted(key: string, instance: nat)
      requires Valid()
      modifies this
      ensures Valid()
      ensures includePattern == old(includePattern) && excludePattern == old(excludePattern) && max == old(max)
      ensures keys == old(keys) && destroyLog == old(destroyLog)
      ensures cache.Keys == old(cache).Keys
      ensures forall k :: k in cache && k != key ==> cache[k] == old(cache)[k]
      ensures Lookup(old(cache), key).Some? ==>
        Lookup(cache, key) == Some(Lookup(old(cache), key).value.(componentInstance := Some(instance)))
      ensures Lookup(old(cache), key).None? ==> cache == old(cache)
    {
      if key in cache && cache[key].Some? {
        cache := cache[key := Some(cache[key].value.(componentInstance := Some(instance)))];
      }
    }

    /**
     * `render`: picks the slot's first component child; unless the filter
     * bypasses it, looks its key up, refreshes the key on a hit, caches it
     * on a miss (evicting `keys[0]` past `max`), and marks it kept alive.
     * Falls back to the slot's first entry when there is no component child.
     * `ok` is false when the eviction's `$destroy` call throws, in which
     * case `r` carries no meaning.
     */
    method Render(slot: Option<seq<Option<VNode>>>, current: Option<VNode>) returns (r: Option<VNode>, ok: bool)
      requires Valid()
      modifies this
      ensures Valid()
      ensures includePattern == old(includePattern) && excludePattern == old(excludePattern) && max == old(max)
      ensures FirstComponentChild(slot).None? ==> r == SlotHead(slot) && ok
      ensures Bypasses(FirstComponentChild(slot), includePattern, excludePattern) ==>
        && r == (if FirstComponentChild(slot).Some? then FirstComponentChild(slot) else SlotHead(slot))
        && ok && cache == old(cache) && keys == old(keys) && destroyLog == old(destroyLog)
      ensures !Bypasses(FirstComponentChild(slot), includePattern, excludePattern) ==>
        var v := FirstComponentChild(slot).value;
        var key := CacheKey(v, v.componentOptions.value);
        && key in cache
        && (keys != [] ==> keys[|keys| - 1] == key)
        && (ok ==> (r.Some? && r.value.keepAlive
                    && r.value == v.(keepAlive := true, componentInstance := r.value.componentInstance)))
        && (ok && max.Some? && |old(keys)| <= max.value ==> |keys| <= max.value)
      ensures !Bypasses(FirstComponentChild(slot), includePattern, excludePattern) ==>
        var v := FirstComponentChild(slot).value;
        var key := CacheKey(v, v.componentOptions.value);
        Lookup(old(cache), key).Some? ==>
          && ok
          && r == Some(v.(componentInstance := Lookup(old(cache), key).value.componentInstance, keepAlive := true))
          && cache == old(cache) && keys == Remove(old(keys), key) + [key] && destroyLog == old(destroyLog)
          && |keys| == |old(keys)|
      ensures !Bypasses(FirstComponentChild(slot), includePattern, excludePattern) ==>
        var v := FirstComponentChild(slot).value;
        var key := CacheKey(v, v.componentOptions.value);
        var grown := old(keys) + [key];
        var added := old(cache)[key := Some(v.(keepAlive := true))];
        var evicts := max.Some? && |grown| > max.value;
        Lookup(old(cache), key).None? ==>
          && (ok <==> !(evicts && Throws(added[grown[0]], current)))
          && (ok ==> r == Some(v.(keepAlive := true)))
          && if evicts && ok then
               && cache == added[grown[0] := None]
               && keys == Remove(grown, grown[0])
               && destroyLog == old(destroyLog) +
                    (if Destroys(added[grown[0]], current) then [Destruction(grown[0], added[grown[0]].value)] else [])
             else
               cache == added && keys == grown && destroyLog == old(destroyLog)
    {
      var vnode := GetFirstComponentChild(slot);
      if vnode.Some? && vnode.value.componentOptions.Some? {
        var opts := vnode.value.componentOptions.value;
        var name := GetComponentName(Some(opts));
        if Excluded(name, includePattern, excludePattern) {
          return vnode, true;
        }
        var node := vnode.value;
        var key := CacheKey(node, opts);
        if key in cache && cache[key].Some? {
          node := node.(componentInstance := cache[key].value.componentInstance);
          CacheHit(key);
        } else {
          // The cache holds the very object that is marked below.
          ok := CacheMiss(key, node.(keepAlive := true), current);
          if !ok {
            return None, false;
          }
        }
        node := node.(keepAlive := true);
        return Some(node), true;
      }
      if vnode.Some? {
        return vnode, true;
      }
      return (if slot.Some? && |slot.value| > 0 then slot.value[0] else None), true;
    }

    /** A cache hit: the key moves to the end of `keys`, the most recently used place. */
    method CacheHit(key: string)
      requires Valid() && Lookup(cache, key).Some?
      modifies this
      ensures Valid()
      ensures includePattern == old(includePattern) && excludePattern == old(excludePattern) && max == old(max)
      ensures cache == old(cache) && destroyLog == old(destroyLog)
      ensures keys == Remove(old(keys), key) + [key] && |keys| == |old(keys)|
    {
      MoveToEnd(keys, key);
      keys := Remove(keys, key);
      keys := keys + [key];
    }

    /**
     * A cache miss: `vnode` is cached under `key`, which goes to the end of
     * `keys`; past `max`, the least recently used key, `keys[0]`, is pruned.
     * That key is `key` itself when `keys` was empty (`max` is 0); its vnode
     * has not been mounted, so `ok` is false when it has no instance to destroy.
     */
    method CacheMiss(key: string, vnode: VNode, current: Option<VNode>) returns (ok: bool)
      requires Valid() && Lookup(cache, key).None?
      modifies this
      ensures Valid()
      ensures includePattern == old(includePattern) && excludePattern == old(excludePattern) && max == old(max)
      ensures key in cache && (keys != [] ==> keys[|keys| - 1] == key)
      ensures ok && max.Some? && |old(keys)| <= max.value ==> |keys| <= max.value
      ensures var grown := old(keys) + [key];
        var added := old(cache)[key := Some(vnode)];
        var evicts := max.Some? && |grown| > max.value;
        && (ok <==> !(evicts && Throws(added[grown[0]], current)))
        && if evicts && ok then
             && cache == added[grown[0] := None]
             && keys == Remove(grown, grown[0])
             && destroyLog == old(destroyLog) +
                  (if Destroys(added[grown[0]], current) then [Destruction(grown[0], added[grown[0]].value)] else [])
           else
             cache == added && keys == grown && destroyLog == old(destroyLog)
    {
      assert key !in keys;
      cache := cache[key := Some(vnode)];
      keys := keys + [key];
      assert NoDup(keys);
      ok := true;
      if max.Some? && |keys| > max.value {
        ok := PruneCacheEntry(keys[0], current);
      }
    }

    /**
     * The `for (const key in cache)` loop shared by `pruneCache` and
     * `destroyed`: calls `pruneCacheEntry` on each key whose entry passes
     * `select`. An entry is read before its own key is pruned and no other
     * visit changes it, so the keys pruned are those selected up front. A
     * throwing `$destroy` ends the loop: `ok` is then false and `pruned`
     * holds the keys pruned before it.
     */
    method PruneEach(select: Option<VNode> -> bool, current: Option<VNode>) returns (ok: bool, ghost pruned: set<string>)
      requires Valid()
      modifies this
      ensures Valid()
      ensures includePattern == old(includePattern) && excludePattern == old(excludePattern) && max == old(max)
      ensures ok <==> forall k :: k in Selected(old(cache), select) ==> !Throws(old(cache)[k], current)
      ensures ok ==> pruned == Selected(old(cache), select)
      ensures pruned <= Selected(old(cache), select)
      ensures cache == Nulled(old(cache), pruned)
      ensures keys == Without(old(keys), pruned)
      ensures LogsEach(old(destroyLog), destroyLog, old(cache), pruned, current)
    {
      ghost var cache0, keys0, log0 := cache, keys, destroyLog;
      ghost var drop := Selected(cache0, select);
      var todo := cache.Keys;
      ghost var done: set<string> := {};
      assert Without(keys0, drop * done) == keys0 by {
        assert drop * done == {};
        WithoutNone(keys0);
      }
      assert cache == Nulled(cache0, drop * done);
      while todo != {}
        invariant todo + done == cache0.Keys && todo !! done
        invariant PrunedSoFar(cache0, keys0, log0, drop, done, current)
        invariant forall k :: k in drop * done ==> !Throws(cache0[k], current)
        invariant includePattern == old(includePattern) && excludePattern == old(excludePattern) && max == old(max)
        decreases todo
      {
        var key :| key in todo;
        var visited := PruneVisit(key, select, current, cache0, keys0, log0, drop, done);
        if !visited {
          ok, pruned := false, drop * done;
          return;
        }
        todo := todo - {key};
        done := done + {key};
      }
      assert drop * done == drop;
      ok, pruned := true, drop;
    }

    /** After visiting the keys `done`: the selected ones among them are pruned. */
    ghost predicate PrunedSoFar(cache0: map<string, Option<VNode>>, keys0: seq<string>, log0: seq<Destruction>,
                                drop: set<string>, done: set<string>, current: Option<VNode>)
      reads this
    {
      && Valid()
      && cache == Nulled(cache0, drop * done)
      && keys == Without(keys0, drop * done)
      && LogsEach(log0, destroyLog, cache0, drop * done, current)
    }

    /** One turn of the loop: prune `key` when its entry is selected; `ok` is false when that throws. */
    method PruneVisit(key: string, select: Option<VNode> -> bool, current: Option<VNode>,
                      ghost cache0: map<string, Option<VNode>>, ghost keys0: seq<string>, ghost log0: seq<Destruction>,
                      ghost drop: set<string>, ghost done: set<string>) returns (ok: bool)
      requires PrunedSoFar(cache0, keys0, log0, drop, done, current)
      requires NoDup(keys0) && drop == Selected(cache0, select) && key in cache0 && key !in done
      modifies this
      ensures ok <==> !(key in drop && Throws(cache0[key], current))
      ensures ok ==> PrunedSoFar(cache0, keys0, log0, drop, done + {key}, current)
      ensures !ok ==> PrunedSoFar(cache0, keys0, log0, drop, done, current)
      ensures includePattern == old(includePattern) && excludePattern == old(excludePattern) && max == old(max)
    {
      assert cache[key] == cache0[key];
      ok := true;
      if select(cache[key]) {
        ghost var logBefore := destroyLog;
        ok := PruneCacheEntry(key, current);
        if !ok {
          return;
        }
        NulledStep(cache0, drop * done, key);
        RemoveWithout(keys0, drop * done, key);
        assert drop * (done + {key}) == drop * done + {key};
        LogStep(log0, logBefore, destroyLog, cache0, drop * done, key, current);
      } else {
        assert drop * (done + {key}) == drop * done;
      }
    }
  }

  /** Nulling one more key of the map. */
  lemma NulledStep(cache: map<string, Option<VNode>>, drop: set<string>, key: string)
    requires key in cache
    ensures Nulled(cache, drop)[key := None] == Nulled(cache, drop + {key})
  {
  }

  /** Filtering nothing out keeps the list. */
  lemma {:induction false} WithoutNone(keys: seq<string>)
    ensures Without(keys, {}) == keys
  {
    if keys != [] {
      WithoutNone(keys[1..]);
    }
  }

  /** Pruning one more key extends a complete destruction log to one that covers that key too. */
  lemma LogStep(log0: seq<Destruction>, before: seq<Destruction>, after: seq<Destruction>,
                cache0: map<string, Option<VNode>>, drop: set<string>, key: string, current: Option<VNode>)
    requires LogsEach(log0, before, cache0, drop, current)
    requires key !in drop && key in cache0
    requires after == before +
      (if Destroys(cache0[key], current) then [Destruction(key, cache0[key].value)] else [])
    ensures LogsEach(log0, after, cache0, drop + {key}, current)
  {
    if !Destroys(cache0[key], current) {
      assert after == before;
    } else {
      assert after[|before|].key == key;
      forall k | k in drop + {key} && k in cache0 && Destroys(cache0[k], current)
        ensures exists i :: |log0| <= i < |after| && after[i].key == k
      {
        if k == key {
          assert after[|before|].key == k;
        } else {
          var i :| |log0| <= i < |before| && before[i].key == k;
          assert after[i].key == k;
        }
      }
    }
  }
}
