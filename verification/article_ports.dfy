/**
 * The world the article use-case runs against: the article store, the
 * article cache (one entry per article plus the "articles:all" collection
 * entry), the request context, and the faults the ports are to report.
 * Every port call the use-case makes is recorded in a trace.
 */
module ArticlePorts {
  import opened Wrappers
  import opened Errorx
  import opened Domain
  import opened Auth
  import opened Persistence

  /**
   * The failures the ports report, one per kind of call; None means the call
   * succeeds. A cache read error has no fault of its own: the use-case only
   * logs it and decides hit or miss by the value alone.
   */
  datatype Faults = Faults(
    cacheWrite: Option<Error>,   // SetArticle / SetArticles fail
    cacheEvict: Option<Error>,   // DeleteArticle fails
    storeRead: Option<Error>,    // GetByID / GetAll fail (whatever the rows)
    storeWrite: Option<Error>)   // Create / Update / Delete fail

  /**
   * An article as GetByID and GetAll return it: ArticleModel has no tags
   * column, so a row read back never carries tags.
   */
  type Row = a: Article | a.tags == [] witness Article(0, "", "", 0, [])

  /** What the store keeps of an article written through FromDomain, as ToDomain reads it back. */
  function Persisted(a: Article): (r: Row)
    ensures r == a.(tags := [])
  {
    ArticleRoundTrip(a);
    ArticleToDomain(ArticleFromDomain(a))
  }

  /**
   * store: the article rows by id; nextId: the store's auto-increment
   * counter, the id of the next row created without one; cache: the per-article entries "article:<id>";
   * collection: the "articles:all" entry; ctx: the request context.
   */
  datatype World = World(
    store: map<Int64, Row>,
    nextId: Int64,
    cache: map<Int64, Article>,
    collection: Option<seq<Article>>,
    ctx: Context,
    faults: Faults)

  /** A port call, with the cache key or argument it was given. */
  datatype Call =
    | GetUserID
    | CacheGetArticle(key: string)
    | CacheSetArticle(key: string, article: Article, ttl: int)
    | CacheGetArticles(key: string)
    | CacheSetArticles(key: string, articles: seq<Article>, ttl: int)
    | CacheDeleteArticle(key: string)
    | RepoCreate(article: Article)
    | RepoGetByID(id: Int64)
    | RepoGetAll
    | RepoUpdate(article: Article)
    | RepoDelete(id: Int64)

  /** Every row is stored under its own id. */
  predicate StoreKeyed(w: World)
  {
    forall k :: k in w.store ==> w.store[k].id == k
  }

  /** Every per-article cache entry is a copy of the current row. */
  predicate EntryCoherent(w: World)
  {
    forall k :: k in w.cache ==> k in w.store && w.cache[k] == w.store[k]
  }

  /** ArticleRepository.GetByID: a missing row is the ErrNotFound sentinel. */
  function StoreGetByID(w: World, id: Int64): (r: Result<Row, Error>)
    ensures w.faults.storeRead.None? ==> (r.Ok? <==> id in w.store)
    ensures r.Ok? ==> id in w.store && r.value == w.store[id] && r.value.tags == []
    ensures r.Err? && w.faults.storeRead.None? ==> r.error == ErrNotFound
  {
    if w.faults.storeRead.Some? then Err(w.faults.storeRead.value)
    else if id in w.store then Ok(w.store[id])
    else Err(ErrNotFound)
  }

  /**
   * ArticleRepository.Create: an insert of FromDomain(a). The row takes
   * a's id, or the counter's when a's is zero; an id already present is a
   * duplicate key and nothing is written. The counter then moves as
   * MySQL's AUTO_INCREMENT does (NextCounter).
   */
  function StoreCreate(w: World, a: Article): (r: Result<World, Error>)
    ensures var id := InsertId(a.id, w.nextId);
      && (r.Ok? <==> w.faults.storeWrite.None? && id !in w.store)
      && (r.Err? && w.faults.storeWrite.None? ==> r.error == DuplicatedKey)
      && (r.Ok? ==>
            && r.value.store.Keys == w.store.Keys + {id}
            && r.value.store[id] == a.(id := id, tags := [])
            && (forall k :: k in w.store ==> r.value.store[k] == w.store[k])
            && r.value.nextId == NextCounter(a.id, w.nextId)
            && r.value.(store := w.store, nextId := w.nextId) == w)
  {
    var id := InsertId(a.id, w.nextId);
    if w.faults.storeWrite.Some? then Err(w.faults.storeWrite.value)
    else if id in w.store then Err(DuplicatedKey)
    else Ok(w.(store := w.store[id := Persisted(a.(id := id))], nextId := NextCounter(a.id, w.nextId)))
  }

  /**
   * Every row's id is below the counter, so a generated id is free; only an
   * exhausted counter, stopped at the largest int64, may have that row.
   */
  predicate CounterAhead(w: World)
  {
    forall k :: k in w.store ==> k < w.nextId || k == MaxInt64
  }

  /** m is no greater than any id of ks. */
  predicate IsLeast(m: Int64, ks: set<Int64>)
  {
    forall j :: j in ks ==> m <= j
  }

  /** The lesser of x and the least of rest is the least of rest + {x}. */
  lemma LeastOfInsert(x: Int64, m: Int64, rest: set<Int64>)
    requires IsLeast(m, rest)
    ensures IsLeast(if x < m then x else m, rest + {x})
  {
  }

  lemma {:induction false} MinExists(ks: set<Int64>)
    requires ks != {}
    ensures exists m :: m in ks && IsLeast(m, ks)
  {
    var x :| x in ks;
    if ks != {x} {
      var rest := ks - {x};
      MinExists(rest);
      var m :| m in rest && IsLeast(m, rest);
      LeastOfInsert(x, m, rest);
      assert rest + {x} == ks;
      var least := if x < m then x else m;
      assert least in ks && IsLeast(least, ks);
    } else {
      assert IsLeast(x, ks);
    }
  }

  function Min(ks: set<Int64>): (m: Int64)
    requires ks != {}
    ensures m in ks && forall j :: j in ks ==> m <= j
  {
    MinExists(ks);
    var m :| m in ks && IsLeast(m, ks);
    m
  }

  /** The ids of a set, least first. */
  function SortedKeys(ks: set<Int64>): (r: seq<Int64>)
    ensures |r| == |ks|
    ensures forall i :: 0 <= i < |r| ==> r[i] in ks
    ensures forall k :: k in ks ==> k in r
    decreases |ks|
  {
    if ks == {} then []
    else
      var m := Min(ks);
      [m] + SortedKeys(ks - {m})
  }

  predicate Ascending(r: seq<Int64>)
  {
    forall i, j :: 0 <= i < j < |r| ==> r[i] < r[j]
  }

  /** Putting an id below every element in front of an ascending sequence keeps it ascending. */
  lemma ConsAscending(m: Int64, rest: seq<Int64>)
    requires Ascending(rest)
    requires forall i :: 0 <= i < |rest| ==> m < rest[i]
    ensures Ascending([m] + rest)
  {
    var r := [m] + rest;
    forall i, j | 0 <= i < j < |r|
      ensures r[i] < r[j]
    {
      assert r[j] == rest[j - 1];
      if i > 0 {
        assert r[i] == rest[i - 1];
      }
    }
  }

  /** SortedKeys lists the ids strictly ascending. */
  lemma {:induction false} SortedKeysAscending(ks: set<Int64>)
    ensures Ascending(SortedKeys(ks))
    decreases |ks|
  {
    if ks != {} {
      var m := Min(ks);
      var rest := SortedKeys(ks - {m});
      SortedKeysAscending(ks - {m});
      forall i | 0 <= i < |rest|
        ensures m < rest[i]
      {
        assert rest[i] in ks - {m};
      }
      ConsAscending(m, rest);
    }
  }

  /** The rows ArticleRepository.GetAll lists: every stored article once, by ascending id. */
  function Listing(store: map<Int64, Row>): (r: seq<Row>)
    ensures |r| == |store|
    ensures forall i :: 0 <= i < |r| ==> r[i] in store.Values
    ensures forall k :: k in store ==> store[k] in r
  {
    var keys := SortedKeys(store.Keys);
    var r := seq(|keys|, i requires 0 <= i < |keys| => store[keys[i]]);
    assert forall k :: k in store ==> store[k] in r by {
      forall k | k in store ensures store[k] in r {
        var i :| 0 <= i < |keys| && keys[i] == k;
        assert r[i] == store[k];
      }
    }
    r
  }

  /** ArticleRepository.GetAll. */
  function StoreGetAll(w: World): (r: Result<seq<Row>, Error>)
    ensures r.Ok? <==> w.faults.storeRead.None?
    ensures r.Ok? ==> r.value == Listing(w.store)
  {
    if w.faults.storeRead.Some? then Err(w.faults.storeRead.value) else Ok(Listing(w.store))
  }
}
