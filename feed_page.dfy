/** The feed page's handlers: loading the posts, reloading after a post is
    created, and turning a like, comment or share into a counter update. */
module FeedPage {
  import opened FeedsStore

  /** The interactions a rendered post reports. */
  datatype Action = Like | Comment | Share

  function ActionName(a: Action): string {
    match a
    case Like => "like"
    case Comment => "comment"
    case Share => "share"
  }

  /** The counter `${action}s` names. */
  function StatFor(a: Action): (f: StatField)
    ensures FieldName(f) == ActionName(a) + "s"
  {
    match a
    case Like => Likes
    case Comment => Comments
    case Share => Shares
  }

  class Feed {
    var showAuthModal: bool
    var posts: seq<FeedPost>
    var loading: bool

    constructor ()
      ensures !showAuthModal && posts == [] && loading
    {
      showAuthModal, posts, loading := false, [], true;
    }

    /** `loadPosts`: replaces the shown posts with the store's listing; on any
        failure keeps the old ones. Loading ends false either way. */
    method LoadPosts(db: FeedsDB, faults: set<Request>)
      requires db.Valid()
      modifies this, db
      ensures db.Valid() && db.posts == old(db.posts)
      ensures !loading && showAuthModal == old(showAuthModal)
      ensures Open !in faults && GetAll !in faults ==>
        NewestFirst(posts) && multiset(posts) == multiset(db.posts.Values)
      ensures Open in faults || GetAll in faults ==> posts == old(posts)
    {
      loading := true;
      var ready := db.Init(faults);
      if ready.Success? {
        var seeded := db.SeedInitialData(faults);
        if seeded.Success? {
          var allPosts := db.GetAllPosts(faults);
          if allPosts.Success? {
            posts := allPosts.value;
          }
        }
      }
      loading := false;
    }

    /** `handlePostCreated`: reloads. */
    method HandlePostCreated(db: FeedsDB, faults: set<Request>)
      requires db.Valid()
      modifies this, db
      ensures db.Valid() && db.posts == old(db.posts)
      ensures !loading && showAuthModal == old(showAuthModal)
      ensures Open !in faults && GetAll !in faults ==>
        NewestFirst(posts) && multiset(posts) == multiset(db.posts.Values)
      ensures Open in faults || GetAll in faults ==> posts == old(posts)
    {
      LoadPosts(db, faults);
    }

    /** `handleInteraction`: signed out, asks for sign-in; signed in, bumps the
        post's counter and reloads, or swallows a failed update. */
    method HandleInteraction(db: FeedsDB, isSignedIn: bool, postId: string, action: Action,
                             faults: set<Request>)
      requires db.Valid()
      modifies this, db
      ensures db.Valid()
      ensures !isSignedIn ==>
        showAuthModal && posts == old(posts) && loading == old(loading) && unchanged(db)
      ensures isSignedIn && !old(db.UpdateSucceeds(postId, faults)) ==>
        unchanged(this) && db.posts == old(db.posts)
      ensures isSignedIn && old(db.UpdateSucceeds(postId, faults)) ==>
        && db.posts == Incremented(old(db.posts), postId, StatFor(action))
        && !loading && showAuthModal == old(showAuthModal)
        && (Open !in faults && GetAll !in faults ==>
              NewestFirst(posts) && multiset(posts) == multiset(db.posts.Values))
        && (Open in faults || GetAll in faults ==> posts == old(posts))
    {
      if !isSignedIn {
        showAuthModal := true;
        return;
      }
      var updated := db.UpdatePostStats(postId, StatFor(action), faults);
      if updated.Success? {
        LoadPosts(db, faults);
      }
    }
  }
}
