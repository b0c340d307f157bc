/**
 * One gateway per data source and sampling choice, kept in a bounded cache that closes the least
 * recently used gateway when it is over its limit.
 */
module GatewayCache {
  import opened Wrappers
  import opened Sequences
  import opened StringOrder

  // ---------------------------------------------------------------------------------------------
  // The cache key

  /** The key of a data source's gateway: its columns are sorted first, so their order is no difference. */
  function KeyOf(id: string, columns: seq<string>): string {
    id + ['|'] + Join('|', Sort(columns))
  }

  function Bar(s: string): (i: nat)
    ensures i <= |s|
    ensures i < |s| ==> s[i] == '|'
    ensures forall j :: 0 <= j < i ==> s[j] != '|'
  {
    if s == "" || s[0] == '|' then 0 else 1 + Bar(s[1..])
  }

  function Split(s: string): (parts: seq<string>)
    ensures |parts| >= 1
    decreases |s|
  {
    var i := Bar(s);
    if i == |s| then [s] else [s[..i]] + Split(s[i + 1..])
  }

  predicate BarFree(s: string) {
    forall i :: 0 <= i < |s| ==> s[i] != '|'
  }

  /** Lists a key can be read back to: no column holds the separator, and not one empty column alone. */
  predicate Separable(columns: seq<string>) {
    (forall i :: 0 <= i < |columns| ==> BarFree(columns[i])) && columns != [""]
  }

  function Columns(joined: string): seq<string> {
    if joined == "" then [] else Split(joined)
  }

  lemma {:induction false} BarIsAt(a: string, b: string)
    requires BarFree(a)
    ensures Bar(a + ['|'] + b) == |a| && Bar(a) == |a|
  {
    var s := a + ['|'] + b;
    assert s[|a|] == '|';
    assert forall j :: 0 <= j < |a| ==> s[j] == a[j];
  }

  lemma {:induction false} SplitStep(first: string, rest: string)
    requires BarFree(first)
    ensures Split(first + ['|'] + rest) == [first] + Split(rest) && Split(first) == [first]
  {
    BarIsAt(first, rest);
    hide Bar, BarFree;
    var s := first + ['|'] + rest;
    assert s[..|first|] == first && s[|first| + 1..] == rest;
  }

  lemma {:induction false} SplitJoin(columns: seq<string>)
    requires columns != [] && forall i :: 0 <= i < |columns| ==> BarFree(columns[i])
    ensures Split(Join('|', columns)) == columns
    decreases |columns|
  {
    hide *;
    var first, rest := columns[0], columns[1..];
    assert columns == [first] + rest;
    if rest == [] {
      assert columns == [first];
      JoinStep('|', first, []);
      SplitStep(first, "");
    } else {
      SplitJoin(rest);
      JoinStep('|', first, rest);
      SplitStep(first, Join('|', rest));
    }
  }

  lemma {:induction false} SplitCases(s: string)
    ensures Bar(s) == |s| ==> Split(s) == [s]
    ensures Bar(s) < |s| ==> Split(s) == [s[..Bar(s)]] + Split(s[Bar(s) + 1..])
  {
    hide Bar;
  }

  lemma {:induction false} JoinSplit(s: string, parts: seq<string>)
    requires parts == Split(s)
    ensures Join('|', parts) == s
    decreases |s|
  {
    hide *;
    var i := Bar(s);
    SplitCases(s);
    if i < |s| {
      var first, rest := s[..i], s[i + 1..];
      JoinSplit(rest, Split(rest));
      JoinStep('|', first, Split(rest));
      assert s == first + ['|'] + rest;
    } else {
      JoinStep('|', s, []);
    }
  }

  lemma {:induction false} SplitIsBarFree(s: string)
    ensures forall i :: 0 <= i < |Split(s)| ==> BarFree(Split(s)[i])
    decreases |s|
  {
    var i := Bar(s);
    assert BarFree(s[..i]);
    if i < |s| {
      SplitIsBarFree(s[i + 1..]);
    } else {
      assert s[..i] == s;
    }
  }

  /** A key says which columns it was made for exactly when the list is separable. */
  lemma {:induction false} KeyReadsBackExactly(columns: seq<string>)
    ensures Columns(Join('|', columns)) == columns <==> Separable(columns)
    ensures Separable(Columns(Join('|', columns))) && Join('|', Columns(Join('|', columns))) == Join('|', columns)
  {
    var s := Join('|', columns);
    JoinSplit(s, Split(s));
    SplitIsBarFree(s);
    if Separable(columns) && columns != [] {
      SplitJoin(columns);
      assert s != "" by {
        if |columns| > 1 {
          assert s[|columns[0]|] == '|';
        }
      }
    }
    assert Join('|', [""]) == "";
  }

  lemma {:induction false} SeparableInAnyOrder(columns: seq<string>, sorted: seq<string>)
    requires multiset(columns) == multiset(sorted) && Separable(columns)
    ensures Separable(sorted)
  {
    forall i | 0 <= i < |sorted| ensures BarFree(sorted[i]) {
      assert sorted[i] in multiset(columns);
    }
    assert |multiset(columns)| == |columns| && |multiset(sorted)| == |sorted|;
  }

  /** The two halves of a key can be told apart. */
  lemma {:induction false} KeyParts(id: string, joined: string, id': string, joined': string)
    requires BarFree(id) && BarFree(id') && id + ['|'] + joined == id' + ['|'] + joined'
    ensures id == id' && joined == joined'
  {
    var s := id + ['|'] + joined;
    BarIsAt(id, joined);
    BarIsAt(id', joined');
    assert s[..|id|] == id && s[|id| + 1..] == joined;
    assert s[..|id'|] == id' && s[|id'| + 1..] == joined';
  }

  /** Callers wanting different sampling never share a key, as long as their lists are separable. */
  lemma {:induction false} KeysTellCallersApart(id: string, columns: seq<string>, id': string, columns': seq<string>)
    requires BarFree(id) && BarFree(id') && Separable(columns) && Separable(columns')
    requires KeyOf(id, columns) == KeyOf(id', columns')
    ensures id == id' && multiset(columns) == multiset(columns')
  {
    var s, s' := Sort(columns), Sort(columns');
    SeparableInAnyOrder(columns, s);
    SeparableInAnyOrder(columns', s');
    KeyParts(id, Join('|', s), id', Join('|', s'));
    KeyReadsBackExactly(s);
    KeyReadsBackExactly(s');
  }

  /** A text that reads as two columns in order: cut at a bar, the first part is at most the second. */
  predicate CutsInOrder(s: string) {
    exists i :: 0 <= i < |s| && s[i] == '|' && AtMost(s[..i], s[i + 1..])
  }

  /** The sorted lists that some other sorted list is joined to the same text as. */
  predicate Collides(sorted: seq<string>) {
    |sorted| != 1 || sorted[0] == "" || CutsInOrder(sorted[0])
  }

  ghost predicate SharesAKey(id: string, columns: seq<string>) {
    exists other :: multiset(other) != multiset(columns) && KeyOf(id, other) == KeyOf(id, columns)
  }

  /** A list of other columns that arrives at the same key. */
  lemma {:induction false} ColliderShares(id: string, columns: seq<string>)
    requires Collides(Sort(columns))
    ensures SharesAKey(id, columns)
  {
    var s := Sort(columns);
    var other := OtherColumns(s);
    SortOfOrdered(other);
    assert multiset(other) != multiset(s) by {
      if multiset(other) == multiset(s) {
        SortOrdered(columns);
        OrderedUnique(other, s);
      }
    }
    assert KeyOf(id, other) == KeyOf(id, columns);
  }

  lemma {:induction false} OtherColumns(s: seq<string>) returns (other: seq<string>)
    requires Collides(s)
    ensures Ordered(other) && other != s && Join('|', other) == Join('|', s)
  {
    if s == [] {
      other := [""];
    } else if |s| > 1 {
      other := [Join('|', s)];
      JoinStep('|', Join('|', s), []);
    } else if s[0] == "" {
      other := [];
      assert s == [""];
    } else {
      var i :| 0 <= i < |s[0]| && s[0][i] == '|' && AtMost(s[0][..i], s[0][i + 1..]);
      var u, v := s[0][..i], s[0][i + 1..];
      other := [u, v];
      assert s == [s[0]] && s[0] == u + ['|'] + v;
      JoinStep('|', u, [v]);
      assert [u] + [v] == other;
    }
  }

  /** The first column of a longer sorted list is at most the text its others are joined to. */
  lemma {:induction false} JoinedCutsInOrder(other: seq<string>)
    requires Ordered(other) && |other| > 1
    ensures CutsInOrder(Join('|', other))
  {
    var u, rest := other[0], other[1..];
    var s := Join('|', other);
    assert other == [u] + rest;
    JoinStep('|', u, rest);
    assert s[|u|] == '|' && s[..|u|] == u && s[|u| + 1..] == Join('|', rest);
    assert AtMost(u, rest[0]);
    if |rest| > 1 {
      assert rest == [rest[0]] + rest[1..];
      JoinStep('|', rest[0], rest[1..]);
      PrefixAtMost(rest[0], ['|'] + Join('|', rest[1..]));
      assert rest[0] + (['|'] + Join('|', rest[1..])) == Join('|', rest);
      AtMostTransitive(u, rest[0], Join('|', rest));
    }
  }

  lemma {:induction false} JoinOfFew(a: seq<string>, b: seq<string>)
    requires |a| <= 1 && |b| == 1 && b[0] != "" && Join('|', a) == Join('|', b)
    ensures a == b
  {
  }

  /**
   * Exactly which requests share a gateway with a request for other columns: none or several
   * columns, one empty one, or one whose text reads as columns in order. The others have it alone.
   */
  lemma {:induction false} SharesAKeyExactly(id: string, columns: seq<string>)
    ensures SharesAKey(id, columns) <==> Collides(Sort(columns))
  {
    hide AtMost, CutsInOrder, Sort, Ordered;
    var s := Sort(columns);
    if Collides(s) {
      ColliderShares(id, columns);
    } else if SharesAKey(id, columns) {
      var other :| multiset(other) != multiset(columns) && KeyOf(id, other) == KeyOf(id, columns);
      var o := Sort(other);
      assert Join('|', o) == Join('|', s) by {
        assert (id + ['|'] + Join('|', o))[|id| + 1..] == Join('|', o);
        assert (id + ['|'] + Join('|', s))[|id| + 1..] == Join('|', s);
      }
      SortOrdered(other);
      assert s == [s[0]];
      JoinStep('|', s[0], []);
      if |o| > 1 {
        JoinedCutsInOrder(o);
      } else {
        JoinOfFew(o, s);
      }
    }
  }

  // ---------------------------------------------------------------------------------------------
  // The cache

  /** Gateways are numbered in the order they are built. */
  datatype Entry = Entry(key: string, gateway: nat)

  /** The ordered dictionary, how many gateways were built, and every close call made, in order. */
  datatype Cache = Cache(entries: seq<Entry>, built: nat, closed: seq<nat>)

  function KeysOf(entries: seq<Entry>): (keys: seq<string>)
    ensures |keys| == |entries|
    ensures forall i :: 0 <= i < |keys| ==> keys[i] == entries[i].key
  {
    seq(|entries|, i requires 0 <= i < |entries| => entries[i].key)
  }

  function GatewaysOf(entries: seq<Entry>): (gateways: seq<nat>)
    ensures |gateways| == |entries|
    ensures forall i :: 0 <= i < |gateways| ==> gateways[i] == entries[i].gateway
  {
    seq(|entries|, i requires 0 <= i < |entries| => entries[i].gateway)
  }

  function IndexOf(entries: seq<Entry>, key: string): (i: nat)
    ensures i <= |entries|
    ensures i < |entries| ==> entries[i].key == key
    ensures i == |entries| ==> key !in KeysOf(entries)
  {
    if entries == [] then 0
    else if entries[0].key == key then 0
    else
      var i := 1 + IndexOf(entries[1..], key);
      assert KeysOf(entries) == [entries[0].key] + KeysOf(entries[1..]);
      i
  }

  /** Drops the oldest entries until at most `limit` are left, closing each one dropped. */
  function Evict(c: Cache, limit: nat): Cache
    decreases |c.entries|
  {
    if |c.entries| <= limit then c
    else Evict(Cache(c.entries[1..], c.built, c.closed + [c.entries[0].gateway]), limit)
  }

  function MoveToEnd(entries: seq<Entry>, i: nat): seq<Entry>
    requires i < |entries|
  {
    entries[..i] + entries[i + 1..] + [entries[i]]
  }

  /** What one successful request does to the cache, and the gateway it returns. */
  function Access(c: Cache, limit: nat, key: string): (Cache, nat) {
    var i := IndexOf(c.entries, key);
    if i < |c.entries| then (c.(entries := MoveToEnd(c.entries, i)), c.entries[i].gateway)
    else (Evict(Cache(c.entries + [Entry(key, c.built)], c.built + 1, c.closed), limit), c.built)
  }

  function CloseAll(c: Cache): Cache {
    Cache([], c.built, c.closed + GatewaysOf(c.entries))
  }

  datatype Unavailable = NoSuchDataSource | ConnectionNotPrepared

  class DataSourceRuntimeProvider {
    const maxCached: nat
    var gateways: seq<Entry>
    var built: nat
    var closed: seq<nat>

    function Now(): Cache
      reads this
    {
      Cache(gateways, built, closed)
    }

    constructor (maxCached: nat)
      ensures this.maxCached == maxCached && Now() == Cache([], 0, [])
    {
      this.maxCached := maxCached;
      this.gateways := [];
      this.built := 0;
      this.closed := [];
    }

    /** `found` is the registry's answer and `prepared` whether building the gateway succeeds. */
    method ContextFor(source: string, columns: seq<string>, found: bool, prepared: bool)
      returns (r: Result<nat, Unavailable>)
      modifies this
      ensures r.Err? <==> !found || (!prepared && KeyOf(source, columns) !in KeysOf(old(gateways)))
      ensures r.Err? ==> Now() == old(Now())
      ensures r.Ok? ==> (Now(), r.value) == Access(old(Now()), maxCached, KeyOf(source, columns))
      ensures var request := Request(source, columns, found, prepared);
        (r.Ok? <==> Served(old(Now()), request)) && Now() == Step(old(Now()), maxCached, request)
    {
      hide KeyOf;
      if !found {
        return Err(NoSuchDataSource);
      }
      var key := KeyOf(source, columns);
      var i := IndexOf(gateways, key);
      if i < |gateways| {
        assert KeysOf(gateways)[i] == key;
        var cached := gateways[i].gateway;
        gateways := MoveToEnd(gateways, i);
        return Ok(cached);
      }
      if !prepared {
        return Err(ConnectionNotPrepared);
      }
      var gateway := built;
      built := built + 1;
      gateways := gateways + [Entry(key, gateway)];
      EvictIfNeeded();
      return Ok(gateway);
    }

    method EvictIfNeeded()
      modifies this
      ensures Now() == Evict(old(Now()), maxCached)
    {
      while |gateways| > maxCached
        invariant Evict(Now(), maxCached) == Evict(old(Now()), maxCached)
        decreases |gateways|
      {
        var evicted := gateways[0];
        gateways := gateways[1..];
        closed := closed + [evicted.gateway];
      }
    }

    method Close()
      modifies this
      ensures Now() == CloseAll(old(Now())) && Now() == Step(old(Now()), maxCached, CloseProvider)
    {
      var owned := gateways;
      gateways := [];
      ghost var before := closed;
      for i := 0 to |owned|
        invariant gateways == [] && built == old(built)
        invariant closed == before + GatewaysOf(owned)[..i]
      {
        closed := closed + [owned[i].gateway];
        assert GatewaysOf(owned)[..i + 1] == GatewaysOf(owned)[..i] + [owned[i].gateway];
      }
      assert GatewaysOf(owned)[..|owned|] == GatewaysOf(owned);
    }
  }

  // ---------------------------------------------------------------------------------------------
  // Recency

  function Remove(s: seq<string>, key: string): seq<string> {
    if s == [] then [] else Remove(s[..|s| - 1], key) + if s[|s| - 1] == key then [] else [s[|s| - 1]]
  }

  /** The distinct keys of a history, least recently used first. */
  function Recency(history: seq<string>): seq<string> {
    if history == [] then []
    else
      var last := history[|history| - 1];
      Remove(Recency(history[..|history| - 1]), last) + [last]
  }

  function LastFew(s: seq<string>, n: nat): seq<string> {
    if |s| <= n then s else s[|s| - n..]
  }

  lemma {:induction false} RemoveAbsent(s: seq<string>, key: string)
    requires key !in s
    ensures Remove(s, key) == s
  {
    if s != [] {
      RemoveAbsent(s[..|s| - 1], key);
      assert s == s[..|s| - 1] + [s[|s| - 1]];
    }
  }

  lemma {:induction false} RemoveConcat(a: seq<string>, b: seq<string>, key: string)
    ensures Remove(a + b, key) == Remove(a, key) + Remove(b, key)
    decreases |b|
  {
    if b == [] {
      assert a + b == a;
    } else {
      assert (a + b)[..|a + b| - 1] == a + b[..|b| - 1];
      RemoveConcat(a, b[..|b| - 1], key);
    }
  }

  lemma {:induction false} RemoveKeeps(s: seq<string>, key: string)
    requires NoDuplicates(s)
    ensures NoDuplicates(Remove(s, key))
    ensures forall k :: k in Remove(s, key) <==> k in s && k != key
  {
    if s != [] {
      var init, last := s[..|s| - 1], s[|s| - 1];
      RemoveKeeps(init, key);
      assert s == init + [last];
      assert last !in init;
    }
  }

  lemma {:induction false} RemoveAtIndex(s: seq<string>, i: nat)
    requires NoDuplicates(s) && i < |s|
    ensures Remove(s, s[i]) == s[..i] + s[i + 1..]
    decreases |s|
  {
    var n := |s| - 1;
    if i == n {
      RemoveAbsent(s[..n], s[i]);
    } else {
      RemoveAtIndex(s[..n], i);
      assert s[..n][..i] == s[..i];
      assert s[i + 1..] == s[..n][i + 1..] + [s[n]];
    }
  }

  lemma {:induction false} AppendKeepsDistinct(s: seq<string>, key: string)
    requires NoDuplicates(s) && key !in s
    ensures NoDuplicates(s + [key])
  {
  }

  lemma {:induction false} RecencyIsDistinct(history: seq<string>)
    ensures NoDuplicates(Recency(history))
    ensures forall k :: k in Recency(history) <==> k in history
  {
    if history != [] {
      var init, last := history[..|history| - 1], history[|history| - 1];
      RecencyIsDistinct(init);
      RemoveKeeps(Recency(init), last);
      hide Remove;
      AppendKeepsDistinct(Remove(Recency(init), last), last);
      hide NoDuplicates;
      assert history == init + [last];
    }
  }

  // ---------------------------------------------------------------------------------------------
  // The invariant

  /** Every gateway built so far is cached once and open, or has been closed once; none is both. */
  ghost predicate Owned(c: Cache) {
    forall g: nat ::
      multiset(GatewaysOf(c.entries))[g] + multiset(c.closed)[g] == if g < c.built then 1 else 0
  }

  /** The cached keys are the most recently used distinct keys, in order, as many as fit. */
  ghost predicate Refines(c: Cache, limit: nat, history: seq<string>) {
    KeysOf(c.entries) == LastFew(Recency(history), limit)
  }

  lemma {:induction false} CloseFirstKeepsOwned(c: Cache)
    requires Owned(c) && c.entries != []
    ensures Owned(Cache(c.entries[1..], c.built, c.closed + [c.entries[0].gateway]))
  {
    var g, rest := c.entries[0].gateway, GatewaysOf(c.entries[1..]);
    assert GatewaysOf(c.entries) == [g] + rest;
    hide GatewaysOf;
    assert multiset(GatewaysOf(c.entries)) == multiset{g} + multiset(rest);
    assert multiset(c.closed + [g]) == multiset(c.closed) + multiset{g};
  }

  lemma {:induction false} EvictKeepsOwned(c: Cache, limit: nat)
    requires Owned(c)
    ensures Owned(Evict(c, limit))
    decreases |c.entries|
  {
    hide Owned;
    if |c.entries| > limit {
      CloseFirstKeepsOwned(c);
      EvictKeepsOwned(Cache(c.entries[1..], c.built, c.closed + [c.entries[0].gateway]), limit);
    }
  }

  lemma {:induction false} EvictKeepsLast(c: Cache, limit: nat)
    ensures Evict(c, limit).entries == if |c.entries| <= limit then c.entries else c.entries[|c.entries| - limit..]
    ensures Evict(c, limit).built == c.built
    decreases |c.entries|
  {
    if |c.entries| > limit {
      var next := Cache(c.entries[1..], c.built, c.closed + [c.entries[0].gateway]);
      EvictKeepsLast(next, limit);
    }
  }

  lemma {:induction false} EvictToNothing(c: Cache)
    ensures Evict(c, 0).entries == [] && Evict(c, 0).closed == c.closed + GatewaysOf(c.entries)
    decreases |c.entries|
  {
    if c.entries != [] {
      var next := Cache(c.entries[1..], c.built, c.closed + [c.entries[0].gateway]);
      EvictToNothing(next);
      assert GatewaysOf(c.entries) == [c.entries[0].gateway] + GatewaysOf(next.entries);
    }
  }

  lemma {:induction false} MovedMultiset(g: seq<nat>, i: nat)
    requires i < |g|
    ensures multiset(g[..i] + g[i + 1..] + [g[i]]) == multiset(g)
  {
    assert g == g[..i] + [g[i]] + g[i + 1..];
  }

  lemma {:induction false} MoveKeepsGateways(entries: seq<Entry>, i: nat)
    requires i < |entries|
    ensures multiset(GatewaysOf(MoveToEnd(entries, i))) == multiset(GatewaysOf(entries))
  {
    var g := GatewaysOf(entries);
    assert GatewaysOf(MoveToEnd(entries, i)) == g[..i] + g[i + 1..] + [g[i]];
    hide *;
    MovedMultiset(g, i);
  }

  lemma {:induction false} BuildKeepsOwned(c: Cache, key: string)
    requires Owned(c)
    ensures Owned(Cache(c.entries + [Entry(key, c.built)], c.built + 1, c.closed))
  {
    assert GatewaysOf(c.entries + [Entry(key, c.built)]) == GatewaysOf(c.entries) + [c.built];
    assert multiset(GatewaysOf(c.entries) + [c.built]) == multiset(GatewaysOf(c.entries)) + multiset{c.built};
  }

  lemma {:induction false} MoveKeepsOwned(c: Cache, i: nat)
    requires Owned(c) && i < |c.entries|
    ensures Owned(c.(entries := MoveToEnd(c.entries, i)))
  {
    MoveKeepsGateways(c.entries, i);
    hide MoveToEnd, GatewaysOf;
  }

  lemma {:induction false} AccessKeepsOwned(c: Cache, limit: nat, key: string)
    requires Owned(c)
    ensures Owned(Access(c, limit, key).0)
  {
    hide Owned, Evict, MoveToEnd;
    var i := IndexOf(c.entries, key);
    if i < |c.entries| {
      MoveKeepsOwned(c, i);
    } else {
      BuildKeepsOwned(c, key);
      EvictKeepsOwned(Cache(c.entries + [Entry(key, c.built)], c.built + 1, c.closed), limit);
    }
  }

  lemma {:induction false} MovedConcat(pre: seq<string>, suffix: seq<string>, i: nat)
    requires i < |suffix|
    ensures var all, at := pre + suffix, |pre| + i;
      all[at] == suffix[i] && all[..at] + all[at + 1..] + [suffix[i]] == pre + (suffix[..i] + suffix[i + 1..] + [suffix[i]])
  {
    var all, at := pre + suffix, |pre| + i;
    assert all[..at] == pre + suffix[..i];
    assert all[at + 1..] == suffix[i + 1..];
  }

  lemma {:induction false} SuffixOfMoved(pre: seq<string>, suffix: seq<string>, i: nat, limit: nat)
    requires NoDuplicates(pre + suffix) && i < |suffix| <= limit
    requires pre == [] || |suffix| == limit
    ensures LastFew(Remove(pre + suffix, suffix[i]) + [suffix[i]], limit) == suffix[..i] + suffix[i + 1..] + [suffix[i]]
  {
    hide Remove, NoDuplicates, LastFew;
    MovedConcat(pre, suffix, i);
    RemoveAtIndex(pre + suffix, |pre| + i);
    var moved := suffix[..i] + suffix[i + 1..] + [suffix[i]];
    LastFewOfConcat(pre, moved, limit);
    LastFewOfFew(moved, limit);
  }

  lemma {:induction false} LastFewOfFew(s: seq<string>, n: nat)
    requires |s| <= n
    ensures LastFew(s, n) == s
  {
  }

  lemma {:induction false} LastFewOfConcat(a: seq<string>, b: seq<string>, n: nat)
    requires a == [] || |b| >= n
    ensures LastFew(a + b, n) == LastFew(b, n)
  {
    if a == [] {
      assert a + b == b;
    }
  }

  lemma {:induction false} SuffixOfAdded(pre: seq<string>, suffix: seq<string>, key: string, limit: nat)
    requires key !in suffix && |suffix| <= limit
    requires pre == [] || |suffix| == limit
    ensures LastFew(Remove(pre + suffix, key) + [key], limit) == LastFew(suffix + [key], limit)
  {
    RemoveConcat(pre, suffix, key);
    RemoveAbsent(suffix, key);
    assert pre == [] ==> Remove(pre, key) == [];
    hide Remove;
    var kept := Remove(pre, key);
    assert Remove(pre + suffix, key) + [key] == kept + (suffix + [key]);
    LastFewOfConcat(kept, suffix + [key], limit);
  }

  /** The recency list, as the keys that no longer fit followed by the keys that do. */
  lemma {:induction false} RecencySplits(history: seq<string>, limit: nat) returns (pre: seq<string>, suffix: seq<string>)
    ensures suffix == LastFew(Recency(history), limit) && Recency(history) == pre + suffix
    ensures NoDuplicates(pre + suffix) && |suffix| <= limit
    ensures pre == [] || |suffix| == limit
  {
    RecencyIsDistinct(history);
    suffix := LastFew(Recency(history), limit);
    pre := Recency(history)[..|Recency(history)| - |suffix|];
  }

  lemma {:induction false} RecencyStep(history: seq<string>, key: string)
    ensures Recency(history + [key]) == Remove(Recency(history), key) + [key]
  {
    assert (history + [key])[..|history|] == history;
  }

  lemma {:induction false} HitKeepsRefines(c: Cache, limit: nat, i: nat, history: seq<string>)
    requires Refines(c, limit, history) && i < |c.entries|
    ensures KeysOf(MoveToEnd(c.entries, i)) == LastFew(Recency(history + [c.entries[i].key]), limit)
  {
    var key := c.entries[i].key;
    var pre, suffix := RecencySplits(history, limit);
    RecencyStep(history, key);
    hide Recency, Remove, NoDuplicates, MoveToEnd;
    assert KeysOf(c.entries) == suffix && suffix[i] == key;
    hide LastFew;
    SuffixOfMoved(pre, suffix, i, limit);
    KeysOfMoved(c.entries, i);
  }

  lemma {:induction false} KeysOfMoved(entries: seq<Entry>, i: nat)
    requires i < |entries|
    ensures var keys := KeysOf(entries);
      KeysOf(MoveToEnd(entries, i)) == keys[..i] + keys[i + 1..] + [keys[i]]
  {
  }

  /** Eviction keeps the last few keys. */
  lemma {:induction false} EvictKeepsLastKeys(c: Cache, limit: nat)
    ensures KeysOf(Evict(c, limit).entries) == LastFew(KeysOf(c.entries), limit)
  {
    EvictKeepsLast(c, limit);
    hide Evict;
  }

  lemma {:induction false} MissKeepsRefines(c: Cache, limit: nat, key: string, history: seq<string>)
    requires Refines(c, limit, history) && key !in KeysOf(c.entries)
    ensures KeysOf(Evict(Cache(c.entries + [Entry(key, c.built)], c.built + 1, c.closed), limit).entries)
         == LastFew(Recency(history + [key]), limit)
  {
    hide Recency, Remove, NoDuplicates, LastFew, Evict;
    var pre, suffix := RecencySplits(history, limit);
    RecencyStep(history, key);
    SuffixOfAdded(pre, suffix, key, limit);
    var next := Cache(c.entries + [Entry(key, c.built)], c.built + 1, c.closed);
    assert KeysOf(next.entries) == suffix + [key];
    EvictKeepsLastKeys(next, limit);
  }

  lemma {:induction false} AccessKeepsRefines(c: Cache, limit: nat, key: string, history: seq<string>)
    requires Refines(c, limit, history)
    ensures Refines(Access(c, limit, key).0, limit, history + [key])
  {
    hide Recency, LastFew, Evict, MoveToEnd;
    var i := IndexOf(c.entries, key);
    if i < |c.entries| {
      HitKeepsRefines(c, limit, i, history);
    } else {
      MissKeepsRefines(c, limit, key, history);
    }
  }

  /** The returned gateway is still open exactly when the cache may hold anything at all. */
  lemma {:induction false} ReturnedIsOpenExactly(c: Cache, limit: nat, key: string)
    requires Owned(c) && |c.entries| <= limit
    ensures Access(c, limit, key).1 !in Access(c, limit, key).0.closed <==> limit >= 1
  {
    var i := IndexOf(c.entries, key);
    AccessKeepsOwned(c, limit, key);
    var after, g := Access(c, limit, key).0, Access(c, limit, key).1;
    if i == |c.entries| && limit == 0 {
      var next := Cache(c.entries + [Entry(key, c.built)], c.built + 1, c.closed);
      EvictToNothing(next);
      assert GatewaysOf(next.entries)[|next.entries| - 1] == g;
    } else {
      if i == |c.entries| {
        EvictKeepsLast(Cache(c.entries + [Entry(key, c.built)], c.built + 1, c.closed), limit);
      }
      LastIsOpen(after, g);
    }
  }

  lemma {:induction false} LastIsOpen(c: Cache, g: nat)
    requires Owned(c) && c.entries != [] && c.entries[|c.entries| - 1].gateway == g
    ensures g !in c.closed
  {
    assert GatewaysOf(c.entries)[|c.entries| - 1] == g;
    assert g in multiset(GatewaysOf(c.entries));
    assert multiset(c.closed)[g] == 0;
  }

  // ---------------------------------------------------------------------------------------------
  // Every run

  datatype Operation =
    | Request(source: string, columns: seq<string>, found: bool, prepared: bool)
    | CloseProvider

  function RequestKey(op: Operation): string
    requires op.Request?
  {
    KeyOf(op.source, op.columns)
  }

  predicate Served(c: Cache, op: Operation) {
    op.Request? && op.found && (op.prepared || RequestKey(op) in KeysOf(c.entries))
  }

  function Step(c: Cache, limit: nat, op: Operation): Cache {
    if op.CloseProvider? then CloseAll(c)
    else if Served(c, op) then Access(c, limit, RequestKey(op)).0
    else c
  }

  function Run(ops: seq<Operation>, limit: nat): Cache {
    if ops == [] then Cache([], 0, []) else Step(Run(ops[..|ops| - 1], limit), limit, ops[|ops| - 1])
  }

  /** The keys served since the provider was last closed. */
  function History(ops: seq<Operation>, limit: nat): seq<string> {
    if ops == [] then []
    else
      var init, last := ops[..|ops| - 1], ops[|ops| - 1];
      if last.CloseProvider? then []
      else if Served(Run(init, limit), last) then History(init, limit) + [RequestKey(last)]
      else History(init, limit)
  }

  /**
   * Whatever is requested, however often building fails, and whenever it is closed: the cache holds
   * exactly the most recently used keys, and every gateway is accounted for once.
   */
  lemma {:induction false} RunIsLru(ops: seq<Operation>, limit: nat)
    ensures Refines(Run(ops, limit), limit, History(ops, limit))
    ensures |Run(ops, limit).entries| <= limit
    ensures Owned(Run(ops, limit))
    decreases |ops|
  {
    hide RequestKey;
    if ops == [] {
      assert GatewaysOf([]) == [];
    } else {
      var init, last := ops[..|ops| - 1], ops[|ops| - 1];
      RunIsLru(init, limit);
      var before := Run(init, limit);
      if last.CloseProvider? {
        CloseKeepsOwned(before);
      } else if Served(before, last) {
        AccessKeepsOwned(before, limit, RequestKey(last));
        AccessKeepsRefines(before, limit, RequestKey(last), History(init, limit));
      }
      assert |KeysOf(Run(ops, limit).entries)| <= limit;
    }
  }

  /** Closing leaves nothing open: every gateway ever built has then been closed exactly once. */
  lemma {:induction false} CloseKeepsOwned(c: Cache)
    requires Owned(c)
    ensures Owned(CloseAll(c)) && CloseAll(c).entries == []
    ensures forall g: nat :: multiset(CloseAll(c).closed)[g] == if g < c.built then 1 else 0
  {
    var after := CloseAll(c);
    assert GatewaysOf(after.entries) == [];
    assert multiset(after.closed) == multiset(c.closed) + multiset(GatewaysOf(c.entries));
  }

  // ---------------------------------------------------------------------------------------------
  // Whose gateway

  /** The keys gateways were built for, in the order they were built. */
  function Builds(ops: seq<Operation>, limit: nat): seq<string> {
    if ops == [] then []
    else
      var init, last := ops[..|ops| - 1], ops[|ops| - 1];
      var before := Run(init, limit);
      if Served(before, last) && RequestKey(last) !in KeysOf(before.entries) then Builds(init, limit) + [RequestKey(last)]
      else Builds(init, limit)
  }

  /** Every gateway built is accounted for, and every cached one is under the key it was built for. */
  ghost predicate HoldsOwn(c: Cache, builds: seq<string>) {
    && |builds| == c.built
    && forall e :: e in c.entries ==> e.gateway < |builds| && builds[e.gateway] == e.key
  }

  /** A request gets a gateway built for its own key, and no entry changes hands. */
  lemma {:induction false} AccessAnswersOwn(c: Cache, limit: nat, key: string, builds: seq<string>)
    requires HoldsOwn(c, builds)
    ensures var (after, g) := Access(c, limit, key);
      var now := if key in KeysOf(c.entries) then builds else builds + [key];
      HoldsOwn(after, now) && g < |now| && now[g] == key
  {
    var i := IndexOf(c.entries, key);
    if i < |c.entries| {
      assert KeysOf(c.entries)[i] == key;
      assert forall e :: e in MoveToEnd(c.entries, i) ==> e in c.entries;
    } else {
      EvictKeepsLast(Cache(c.entries + [Entry(key, c.built)], c.built + 1, c.closed), limit);
      hide Evict, KeysOf;
    }
  }

  lemma {:induction false} RunHoldsOwn(ops: seq<Operation>, limit: nat)
    ensures HoldsOwn(Run(ops, limit), Builds(ops, limit))
    decreases |ops|
  {
    hide RequestKey, Access;
    if ops != [] {
      var init, last := ops[..|ops| - 1], ops[|ops| - 1];
      RunHoldsOwn(init, limit);
      if Served(Run(init, limit), last) {
        AccessAnswersOwn(Run(init, limit), limit, RequestKey(last), Builds(init, limit));
      }
    }
  }

  lemma {:induction false} BuildsGrow(ops: seq<Operation>, limit: nat, n: nat)
    requires n <= |ops|
    ensures Builds(ops[..n], limit) <= Builds(ops, limit)
    decreases |ops|
  {
    assert ops[..|ops|] == ops;
    if n < |ops| {
      BuildsGrow(ops[..|ops| - 1], limit, n);
      assert ops[..|ops| - 1][..n] == ops[..n];
    }
    hide Run, Served;
  }

  /** The gateway the provider answers request `n` of a run with. */
  function Answer(ops: seq<Operation>, limit: nat, n: nat): nat
    requires n < |ops| && Served(Run(ops[..n], limit), ops[n])
  {
    Access(Run(ops[..n], limit), limit, RequestKey(ops[n])).1
  }

  /** Over every run, each request is answered with a gateway that was built for its own key. */
  lemma {:induction false} AnsweredForItsKey(ops: seq<Operation>, limit: nat, n: nat)
    requires n < |ops| && Served(Run(ops[..n], limit), ops[n])
    ensures Answer(ops, limit, n) < |Builds(ops, limit)|
    ensures Builds(ops, limit)[Answer(ops, limit, n)] == RequestKey(ops[n])
  {
    var before, key := Run(ops[..n], limit), RequestKey(ops[n]);
    RunHoldsOwn(ops[..n], limit);
    AccessAnswersOwn(before, limit, key, Builds(ops[..n], limit));
    assert ops[..n + 1][..n] == ops[..n];
    BuildsGrow(ops, limit, n + 1);
    hide Run, Access, RequestKey, HoldsOwn;
  }

  /**
   * So two requests of a run share a gateway only if their keys are equal: with separable columns,
   * only if they want the same source and the same columns.
   */
  lemma {:induction false} SharedGatewayMeansSameCaller(ops: seq<Operation>, limit: nat, n: nat, m: nat)
    requires n < |ops| && Served(Run(ops[..n], limit), ops[n])
    requires m < |ops| && Served(Run(ops[..m], limit), ops[m])
    requires Answer(ops, limit, n) == Answer(ops, limit, m)
    ensures RequestKey(ops[n]) == RequestKey(ops[m])
    ensures BarFree(ops[n].source) && BarFree(ops[m].source) && Separable(ops[n].columns) && Separable(ops[m].columns) ==>
      ops[n].source == ops[m].source && multiset(ops[n].columns) == multiset(ops[m].columns)
  {
    AnsweredForItsKey(ops, limit, n);
    AnsweredForItsKey(ops, limit, m);
    hide Run, Answer, Builds;
    if BarFree(ops[n].source) && BarFree(ops[m].source) && Separable(ops[n].columns) && Separable(ops[m].columns) {
      KeysTellCallersApart(ops[n].source, ops[n].columns, ops[m].source, ops[m].columns);
    }
  }
}
