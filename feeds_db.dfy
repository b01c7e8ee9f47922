/** The posts store: an IndexedDB database `FeedsDB` holding one object
    store `posts`, keyed by `id`, with a non-unique index on `timestamp`.
    Every request is a synchronous step on an in-memory map; which requests
    the browser fails is a parameter of each call. */
module FeedsStore {
  import opened Outcomes

  const DbName := "FeedsDB"
  const DbVersion := 1
  const StoreName := "posts"
  const TimestampIndex := "timestamp"

  /** A stored post. The counters start at zero and only ever grow. */
  datatype FeedPost = FeedPost(
    id: string,
    content: string,
    emoji: string,
    author: string,
    authorAvatar: string,
    timestamp: int,
    likes: nat,
    comments: nat,
    shares: nat)

  /** What a caller of `addPost` supplies: a post without id, timestamp and counters. */
  datatype PostInput = PostInput(content: string, emoji: string, author: string, authorAvatar: string)

  /** The counters `updatePostStats` may increment. */
  datatype StatField = Likes | Comments | Shares

  function FieldName(f: StatField): string {
    match f
    case Likes => "likes"
    case Comments => "comments"
    case Shares => "shares"
  }

  function Count(p: FeedPost, f: StatField): nat {
    match f
    case Likes => p.likes
    case Comments => p.comments
    case Shares => p.shares
  }

  /** A post with its counters forgotten: everything the increment must not touch. */
  function Uncounted(p: FeedPost): FeedPost {
    p.(likes := 0, comments := 0, shares := 0)
  }

  /** `post[field] += 1`. */
  function Bump(p: FeedPost, f: StatField): (r: FeedPost)
    ensures Count(r, f) == Count(p, f) + 1
    ensures forall g :: g != f ==> Count(r, g) == Count(p, g)
    ensures Uncounted(r) == Uncounted(p)
  {
    match f
    case Likes => p.(likes := p.likes + 1)
    case Comments => p.(comments := p.comments + 1)
    case Shares => p.(shares := p.shares + 1)
  }

  /** The storage requests a call may issue; a request in a call's fault set
      fires its `onerror` handler. */
  datatype Request = Open | Add | GetAll | Get | Put

  /** The errors the store's promises reject with. */
  datatype StoreError = OpenFailed | AddFailed | GetAllFailed | GetFailed | NotFound | UpdateFailed

  function Message(e: StoreError): string {
    match e
    case OpenFailed => "Failed to open database"
    case AddFailed => "Failed to add post"
    case GetAllFailed => "Failed to get posts"
    case GetFailed => "Failed to get post"
    case NotFound => "Post not found"
    case UpdateFailed => "Failed to update post"
  }

  /** The object store's key path is `id`: every record sits under its own id. */
  ghost predicate KeyedById(m: map<string, FeedPost>) {
    forall k :: k in m ==> m[k].id == k
  }

  /** How the store may evolve: no post disappears, and a post keeps all of
      its fields except that its counters may grow. */
  ghost predicate Evolves(before: map<string, FeedPost>, after: map<string, FeedPost>) {
    && before.Keys <= after.Keys
    && forall k :: k in before ==>
         && Uncounted(after[k]) == Uncounted(before[k])
         && forall f :: Count(after[k], f) >= Count(before[k], f)
  }

  lemma EvolvesTransitive(a: map<string, FeedPost>, b: map<string, FeedPost>, c: map<string, FeedPost>)
    requires Evolves(a, b) && Evolves(b, c)
    ensures Evolves(a, c)
  {
    forall k | k in a
      ensures Uncounted(c[k]) == Uncounted(a[k]) && forall f :: Count(c[k], f) >= Count(a[k], f)
    {
      assert k in b;
      forall f ensures Count(c[k], f) >= Count(a[k], f) {
        assert Count(c[k], f) >= Count(b[k], f) >= Count(a[k], f);
      }
    }
  }

  /** The store after one successful `updatePostStats(id, f)`. */
  function Incremented(m: map<string, FeedPost>, id: string, f: StatField): (r: map<string, FeedPost>)
    requires id in m
    ensures r.Keys == m.Keys
    ensures Count(r[id], f) == Count(m[id], f) + 1
    ensures forall g :: g != f ==> Count(r[id], g) == Count(m[id], g)
    ensures Uncounted(r[id]) == Uncounted(m[id])
    ensures forall k :: k in m && k != id ==> r[k] == m[k]
  {
    m[id := Bump(m[id], f)]
  }

  /** An increment is an evolution of the store and keeps every post under
      its own id. */
  lemma IncrementedEvolves(m: map<string, FeedPost>, id: string, f: StatField)
    requires id in m
    ensures Evolves(m, Incremented(m, id, f))
    ensures KeyedById(m) ==> KeyedById(Incremented(m, id, f))
  {
    var r := Incremented(m, id, f);
    forall k | k in m
      ensures Uncounted(r[k]) == Uncounted(m[k]) && forall g :: Count(r[k], g) >= Count(m[k], g)
    {
      if k == id {
        forall g ensures Count(r[k], g) >= Count(m[k], g) {
          if g != f {
            assert Count(r[id], g) == Count(m[id], g);
          }
        }
      }
    }
  }

  /** The store after `n` successful increments of the same counter. */
  function IncrementedTimes(m: map<string, FeedPost>, id: string, f: StatField, n: nat): map<string, FeedPost>
    requires id in m
    decreases n
  {
    if n == 0 then m else
      var r := Incremented(m, id, f);
      IncrementedTimes(r, id, f, n - 1)
  }

  /** `n` sequential increments of one counter raise it by exactly `n` and
      change nothing else. */
  lemma {:induction false} IncrementedTimesCount(m: map<string, FeedPost>, id: string, f: StatField, n: nat)
    requires id in m
    ensures var r := IncrementedTimes(m, id, f, n);
      && r.Keys == m.Keys
      && Count(r[id], f) == Count(m[id], f) + n
      && (forall g :: g != f ==> Count(r[id], g) == Count(m[id], g))
      && Uncounted(r[id]) == Uncounted(m[id])
      && (forall k :: k in m && k != id ==> r[k] == m[k])
    decreases n
  {
    if n > 0 {
      var m' := Incremented(m, id, f);
      IncrementedTimesCount(m', id, f, n - 1);
      assert Bump(m[id], f) == m'[id];
    }
  }

  /** Newest first: timestamps never increase along the sequence. */
  predicate NewestFirst(s: seq<FeedPost>) {
    forall i, j :: 0 <= i < j < |s| ==> s[i].timestamp >= s[j].timestamp
  }

  /** Places `p` in a newest-first sequence, before the first post it is
      at least as new as. */
  function Insert(p: FeedPost, s: seq<FeedPost>): seq<FeedPost> {
    if s == [] || p.timestamp >= s[0].timestamp then [p] + s
    else [s[0]] + Insert(p, s[1..])
  }

  /** A post at least as new as every post of a newest-first sequence can
      head it. */
  lemma ConsNewestFirst(x: FeedPost, t: seq<FeedPost>)
    requires NewestFirst(t)
    requires forall j :: 0 <= j < |t| ==> t[j].timestamp <= x.timestamp
    ensures NewestFirst([x] + t)
  {
    var r := [x] + t;
    forall i, j | 0 <= i < j < |r| ensures r[i].timestamp >= r[j].timestamp {
      assert r[j] == t[j - 1];
      if i > 0 {
        assert r[i] == t[i - 1];
      }
    }
  }

  /** A bound on the timestamps of some posts and of one more bounds every
      post of a sequence holding exactly those. */
  lemma MembersBounded(t: seq<FeedPost>, u: seq<FeedPost>, extra: FeedPost, bound: int)
    requires multiset(t) == multiset(u) + multiset{extra}
    requires extra.timestamp <= bound
    requires forall i :: 0 <= i < |u| ==> u[i].timestamp <= bound
    ensures forall j :: 0 <= j < |t| ==> t[j].timestamp <= bound
  {
    forall j | 0 <= j < |t| ensures t[j].timestamp <= bound {
      assert t[j] in multiset(t);
      if t[j] != extra {
        assert t[j] in multiset(u);
        var i :| 0 <= i < |u| && u[i] == t[j];
      }
    }
  }

  /** Insertion keeps a sequence newest first and adds exactly `p`. */
  lemma {:induction false} InsertNewestFirst(p: FeedPost, s: seq<FeedPost>)
    requires NewestFirst(s)
    ensures NewestFirst(Insert(p, s))
    ensures multiset(Insert(p, s)) == multiset(s) + multiset{p}
  {
    if s == [] || p.timestamp >= s[0].timestamp {
      ConsNewestFirst(p, s);
    } else {
      var t := Insert(p, s[1..]);
      InsertNewestFirst(p, s[1..]);
      assert s == [s[0]] + s[1..];
      MembersBounded(t, s[1..], p, s[0].timestamp);
      ConsNewestFirst(s[0], t);
    }
  }

  /** `posts.sort((a, b) => b.timestamp - a.timestamp)` as far as the result
      is determined: some newest-first arrangement of the same posts. */
  function SortNewestFirst(s: seq<FeedPost>): seq<FeedPost> {
    if s == [] then [] else Insert(s[0], SortNewestFirst(s[1..]))
  }

  /** The sort orders by non-increasing timestamp and only rearranges. */
  lemma {:induction false} SortNewestFirstSorts(s: seq<FeedPost>)
    ensures NewestFirst(SortNewestFirst(s))
    ensures multiset(SortNewestFirst(s)) == multiset(s)
  {
    if s != [] {
      assert multiset(s) == multiset(s[1..]) + multiset{s[0]} by {
        assert s == [s[0]] + s[1..];
      }
      var t := SortNewestFirst(s[1..]);
      SortNewestFirstSorts(s[1..]);
      InsertNewestFirst(s[0], t);
    }
  }

  /** When `p` is strictly newer than every other listed post, a newest-first
      listing starts with `p`. */
  lemma NewestListedFirst(r: seq<FeedPost>, p: FeedPost)
    requires NewestFirst(r) && p in r
    requires forall q :: q in r && q != p ==> q.timestamp < p.timestamp
    ensures r[0] == p
  {
    var i :| 0 <= i < |r| && r[i] == p;
    assert i == 0 || r[0].timestamp >= r[i].timestamp;
  }

  /** Deleting key `k` removes exactly the value `m[k]` from the values. */
  lemma ValuesWithout(m: map<string, FeedPost>, k: string)
    requires KeyedById(m) && k in m
    ensures multiset((m - {k}).Values) + multiset{m[k]} == multiset(m.Values)
  {
    var rest := m - {k};
    assert m.Values == rest.Values + {m[k]} by {
      forall v | v in m.Values ensures v in rest.Values + {m[k]} {
        var j :| j in m && m[j] == v;
        if j != k { assert rest[j] == v; }
      }
    }
    assert m[k] !in rest.Values by {
      assert forall j :: j in rest ==> rest[j].id != m[k].id;
    }
    forall v ensures multiset(m.Values)[v] == (multiset(rest.Values) + multiset{m[k]})[v] {
      if v == m[k] {
        assert v in m.Values && v !in rest.Values;
      } else {
        assert v in m.Values <==> v in rest.Values;
      }
    }
  }

  /** With records keyed by their ids, there are as many values as keys. */
  lemma {:induction false} ValuesCount(m: map<string, FeedPost>)
    requires KeyedById(m)
    ensures |multiset(m.Values)| == |m|
    decreases |m|
  {
    if |m| > 0 {
      var k :| k in m;
      ValuesWithout(m, k);
      ValuesCount(m - {k});
    }
  }

  /** A sequence with the multiset of the stored posts lists each stored post
      exactly once and nothing else. */
  lemma ListingIsExact(r: seq<FeedPost>, m: map<string, FeedPost>)
    requires KeyedById(m) && multiset(r) == multiset(m.Values)
    ensures |r| == |m|
    ensures forall k :: k in m ==> m[k] in r
    ensures forall i :: 0 <= i < |r| ==> r[i].id in m && m[r[i].id] == r[i]
    ensures forall i, j :: 0 <= i < j < |r| ==> r[i] != r[j]
  {
    ValuesCount(m);
    forall k | k in m ensures m[k] in r {
      assert m[k] in multiset(m.Values);
    }
    forall i | 0 <= i < |r| ensures r[i].id in m && m[r[i].id] == r[i] {
      assert r[i] in multiset(r);
    }
    forall i, j | 0 <= i < j < |r| ensures r[i] != r[j] {
      assert r == r[..j] + r[j..];
      assert r[i] in r[..j] && r[j] in r[j..];
      assert multiset(r) == multiset(r[..j]) + multiset(r[j..]);
      assert multiset(m.Values)[r[j]] <= 1;
    }
  }

  class FeedsDB {
    /** Whether `this.db` holds an open connection. */
    var isOpen: bool
    /** The persisted database's version; 0 while it does not exist. */
    var version: nat
    /** Whether the `posts` object store exists. */
    var hasPostsStore: bool
    /** Whether the `timestamp` index on `posts` exists. */
    var hasTimestampIndex: bool
    /** The records of the `posts` object store, by primary key. */
    var posts: map<string, FeedPost>

    ghost predicate Valid()
      reads this
    {
      && hasTimestampIndex == hasPostsStore
      && version <= DbVersion
      && (version == DbVersion ==> hasPostsStore)
      && (isOpen ==> version == DbVersion)
      && (!hasPostsStore ==> posts == map[])
      && KeyedById(posts)
    }

    /** `new FeedsDB()`: a handle with no connection yet, in a browser whose
        persisted `FeedsDB` database is at `storedVersion` (0 when it does not
        exist), with the `posts` store present or not and holding
        `storedPosts` from earlier visits. */
    constructor (storedVersion: nat, storedStore: bool, storedPosts: map<string, FeedPost>)
      requires storedVersion <= DbVersion
      requires storedVersion == DbVersion ==> storedStore
      requires !storedStore ==> storedPosts == map[]
      requires KeyedById(storedPosts)
      ensures Valid()
      ensures !isOpen && version == storedVersion && hasPostsStore == storedStore
      ensures posts == storedPosts
    {
      isOpen, version := false, storedVersion;
      hasPostsStore, hasTimestampIndex := storedStore, storedStore;
      posts := storedPosts;
    }

    /** Whether a call with these faults gets past "open the store if it is
        not open". */
    predicate Reachable(faults: set<Request>)
      reads this
    {
      isOpen || Open !in faults
    }

    /** Whether `updatePostStats(postId, _)` resolves under these faults. */
    predicate UpdateSucceeds(postId: string, faults: set<Request>)
      reads this
    {
      Reachable(faults) && Get !in faults && postId in posts && Put !in faults
    }

    /** `init`: open the database; an upgrade from a missing database creates
        the `posts` store and its `timestamp` index when they are absent. */
    method Init(faults: set<Request>) returns (r: Result<(), StoreError>)
      requires Valid()
      modifies this
      ensures Valid()
      ensures posts == old(posts)
      ensures Open in faults ==> r == Failure(OpenFailed) && unchanged(this)
      ensures Open !in faults ==> r == Success(()) && isOpen && version == DbVersion
      ensures Open !in faults ==> hasPostsStore && hasTimestampIndex
    {
      if Open in faults {
        return Failure(OpenFailed);
      }
      if version < DbVersion {
        // onupgradeneeded
        if !hasPostsStore {
          hasPostsStore := true;
          hasTimestampIndex := true;
        }
        version := DbVersion;
      }
      isOpen := true;
      return Success(());
    }

    /** `addPost`: builds the post with zeroed counters and `add`s it, which
        rejects a key already present. */
    method AddPost(input: PostInput, id: string, timestamp: int, faults: set<Request>)
      returns (r: Result<FeedPost, StoreError>)
      requires Valid()
      modifies this
      ensures Valid()
      ensures Evolves(old(posts), posts)
      ensures r.Success? <==> old(Reachable(faults)) && Add !in faults && id !in old(posts)
      ensures r.Failure? ==> posts == old(posts)
      ensures r.Failure? ==> r.error == (if old(Reachable(faults)) then AddFailed else OpenFailed)
      ensures r.Success? ==>
        && r.value.id == id && r.value.timestamp == timestamp
        && r.value.content == input.content && r.value.emoji == input.emoji
        && r.value.author == input.author && r.value.authorAvatar == input.authorAvatar
        && r.value.likes == 0 && r.value.comments == 0 && r.value.shares == 0
        && posts == old(posts)[id := r.value]
      ensures old(Reachable(faults)) ==> isOpen
    {
      if !isOpen {
        var o := Init(faults);
        if o.Failure? {
          return Failure(o.error);
        }
      }
      var newPost := FeedPost(id, input.content, input.emoji, input.author, input.authorAvatar, timestamp, 0, 0, 0);
      if Add in faults || id in posts {
        return Failure(AddFailed);
      }
      posts := posts[id := newPost];
      return Success(newPost);
    }

    /** `index('timestamp').getAll()`: every record of the store, in an order
        this model leaves open. */
    method IndexGetAll() returns (all: seq<FeedPost>)
      requires Valid()
      ensures multiset(all) == multiset(posts.Values)
    {
      var rest := posts;
      all := [];
      while |rest| > 0
        invariant rest.Keys <= posts.Keys
        invariant forall k :: k in rest ==> rest[k] == posts[k]
        invariant multiset(all) + multiset(rest.Values) == multiset(posts.Values)
        decreases |rest|
      {
        var k :| k in rest;
        ValuesWithout(rest, k);
        all := all + [rest[k]];
        rest := rest - {k};
      }
      assert rest == map[];
    }

    /** `getAllPosts`: every stored post, newest first. */
    method GetAllPosts(faults: set<Request>) returns (r: Result<seq<FeedPost>, StoreError>)
      requires Valid()
      modifies this
      ensures Valid()
      ensures posts == old(posts)
      ensures r.Success? <==> old(Reachable(faults)) && GetAll !in faults
      ensures r.Failure? ==> r.error == (if old(Reachable(faults)) then GetAllFailed else OpenFailed)
      ensures r.Success? ==> NewestFirst(r.value) && multiset(r.value) == multiset(posts.Values)
      ensures old(Reachable(faults)) ==> isOpen
    {
      if !isOpen {
        var o := Init(faults);
        if o.Failure? {
          return Failure(o.error);
        }
      }
      if GetAll in faults {
        return Failure(GetAllFailed);
      }
      var all := IndexGetAll();
      SortNewestFirstSorts(all);
      return Success(SortNewestFirst(all));
    }

    /** `updatePostStats`: reads the post, adds 1 to one counter and puts it
        back; rejects with "Post not found" when the id is unknown. */
    method UpdatePostStats(postId: string, field: StatField, faults: set<Request>)
      returns (r: Result<(), StoreError>)
      requires Valid()
      modifies this
      ensures Valid()
      ensures Evolves(old(posts), posts)
      ensures r.Success? <==> old(UpdateSucceeds(postId, faults))
      ensures r.Success? ==> posts == Incremented(old(posts), postId, field)
      ensures r.Failure? ==> posts == old(posts)
      ensures !old(Reachable(faults)) ==> r == Failure(OpenFailed)
      ensures old(Reachable(faults)) && Get in faults ==> r == Failure(GetFailed)
      ensures old(Reachable(faults)) && Get !in faults && postId !in old(posts) ==> r == Failure(NotFound)
      ensures old(Reachable(faults)) && Get !in faults && postId in old(posts) && Put in faults ==>
                r == Failure(UpdateFailed)
      ensures old(Reachable(faults)) ==> isOpen
    {
      if !isOpen {
        var o := Init(faults);
        if o.Failure? {
          return Failure(o.error);
        }
      }
      if Get in faults {
        return Failure(GetFailed);
      }
      if postId in posts {
        var post := Bump(posts[postId], field);
        if Put in faults {
          return Failure(UpdateFailed);
        }
        IncrementedEvolves(posts, postId, field);
        posts := posts[post.id := post];
        return Success(());
      } else {
        return Failure(NotFound);
      }
    }

    /** `seedInitialData`: seeds no posts, only initializes. */
    method SeedInitialData(faults: set<Request>) returns (r: Result<(), StoreError>)
      requires Valid()
      modifies this
      ensures Valid()
      ensures posts == old(posts)
      ensures Open in faults ==> r == Failure(OpenFailed) && unchanged(this)
      ensures Open !in faults ==> r == Success(()) && isOpen
    {
      r := Init(faults);
    }
  }
}
