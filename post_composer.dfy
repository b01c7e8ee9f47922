/** The post composer's handlers: the content guard, submitting a post to the
    store, and the emoji picker. Rendering is not modelled. */
module Composer {
  import opened Outcomes
  import opened FeedsStore
  import AuthSession

  /** The code points `String.prototype.trim` removes: ECMAScript's
      WhiteSpace (tab, vertical tab, form feed, no-break space, byte order
      mark and the space separators) and LineTerminator characters. */
  predicate IsJsWhitespace(c: char) {
    || c == '\t' || c == '\n' || c == '\U{000B}' || c == '\U{000C}' || c == '\r'
    || c == ' ' || c == '\U{00A0}' || c == '\U{1680}'
    || ('\U{2000}' <= c <= '\U{200A}')
    || c == '\U{2028}' || c == '\U{2029}' || c == '\U{202F}' || c == '\U{205F}'
    || c == '\U{3000}' || c == '\U{FEFF}'
  }

  function TrimStart(s: string): string {
    if s != [] && IsJsWhitespace(s[0]) then TrimStart(s[1..]) else s
  }

  function TrimEnd(s: string): string {
    if s != [] && IsJsWhitespace(s[|s| - 1]) then TrimEnd(s[..|s| - 1]) else s
  }

  /** `s.trim()`. */
  function Trim(s: string): string {
    TrimEnd(TrimStart(s))
  }

  /** Trimming the front removes a run of whitespace and stops at the first
      other character. */
  lemma {:induction false} TrimStartShape(s: string)
    ensures var r := TrimStart(s);
      && |r| <= |s| && r == s[|s| - |r|..]
      && (forall i :: 0 <= i < |s| - |r| ==> IsJsWhitespace(s[i]))
      && (r == [] || !IsJsWhitespace(r[0]))
  {
    if s != [] && IsJsWhitespace(s[0]) {
      TrimStartShape(s[1..]);
      var r := TrimStart(s[1..]);
      assert forall i :: 1 <= i < |s| - |r| ==> s[i] == s[1..][i - 1];
    }
  }

  /** Trimming the back removes a run of whitespace and stops at the last
      other character. */
  lemma {:induction false} TrimEndShape(s: string)
    ensures var r := TrimEnd(s);
      && |r| <= |s| && r == s[..|r|]
      && (forall i :: |r| <= i < |s| ==> IsJsWhitespace(s[i]))
      && (r == [] || !IsJsWhitespace(r[|r| - 1]))
  {
    if s != [] && IsJsWhitespace(s[|s| - 1]) {
      TrimEndShape(s[..|s| - 1]);
    }
  }

  /** The trimmed text is empty exactly when every character is whitespace. */
  lemma TrimEmptyIff(s: string)
    ensures Trim(s) == [] <==> forall i :: 0 <= i < |s| ==> IsJsWhitespace(s[i])
  {
    TrimStartShape(s);
    var t := TrimStart(s);
    TrimEndShape(t);
    forall i | |s| - |t| <= i < |s| ensures s[i] == t[i - (|s| - |t|)] {
    }
    assert t != [] ==> t[0] == s[|s| - |t|];
  }

  class PostComposer {
    /** `COMPOSER_CONFIG.DEFAULT_AVATAR_URL`, a constant this model does not contain. */
    const defaultAvatarUrl: string
    var content: string
    var isPosting: bool
    var selectedEmoji: string
    var showEmojiPicker: bool

    /** The composer as mounted; `defaultEmoji` is `COMPOSER_CONFIG.DEFAULT_EMOJI`. */
    constructor (defaultEmoji: string, avatarUrl: string)
      ensures defaultAvatarUrl == avatarUrl
      ensures content == "" && !isPosting && selectedEmoji == defaultEmoji && !showEmojiPicker
    {
      defaultAvatarUrl := avatarUrl;
      content, isPosting, selectedEmoji, showEmojiPicker := "", false, defaultEmoji, false;
    }

    /** `hasContent`: the text holds something besides whitespace. */
    function HasContent(): (b: bool)
      reads this
      ensures b <==> exists i :: 0 <= i < |content| && !IsJsWhitespace(content[i])
    {
      TrimEmptyIff(content);
      |Trim(content)| > 0
    }

    /** `handleContentChange`. */
    method HandleContentChange(value: string)
      modifies this
      ensures content == value
      ensures isPosting == old(isPosting) && selectedEmoji == old(selectedEmoji)
      ensures showEmojiPicker == old(showEmojiPicker)
    {
      content := value;
    }

    /** `handleSubmit`: with content and a signed-in user, adds the trimmed
        post under `id` at `timestamp`; a stored post clears the text and
        calls `onPostCreated` (reported as `postCreated`). */
    method HandleSubmit(db: FeedsDB, isSignedIn: bool, user: Option<AuthSession.User>,
                        id: string, timestamp: int, faults: set<Request>) returns (postCreated: bool)
      requires db.Valid()
      modifies this, db
      ensures db.Valid()
      ensures selectedEmoji == old(selectedEmoji) && showEmojiPicker == old(showEmojiPicker)
      ensures !(old(HasContent()) && isSignedIn && user.Some?) ==>
        !postCreated && unchanged(this) && unchanged(db)
      ensures old(HasContent()) && isSignedIn && user.Some? ==>
        && !isPosting
        && (postCreated <==> old(db.Reachable(faults)) && Add !in faults && id !in old(db.posts))
        && (postCreated ==>
              content == "" &&
              db.posts == old(db.posts)[id := FeedPost(id, Trim(old(content)), old(selectedEmoji),
                                                       user.value.email, defaultAvatarUrl, timestamp, 0, 0, 0)])
        && (!postCreated ==> content == old(content) && db.posts == old(db.posts))
    {
      if !HasContent() || !isSignedIn || user.None? {
        return false;
      }
      isPosting := true;
      var added := db.AddPost(PostInput(Trim(content), selectedEmoji, user.value.email, defaultAvatarUrl),
                              id, timestamp, faults);
      postCreated := added.Success?;
      if postCreated {
        content := "";
      }
      isPosting := false;
    }

    /** `handleSendClick`: signed out, calls `onAuthRequired` (reported as
        `authRequired`) instead of submitting. */
    method HandleSendClick(db: FeedsDB, isSignedIn: bool, user: Option<AuthSession.User>,
                           id: string, timestamp: int, faults: set<Request>)
      returns (authRequired: bool, postCreated: bool)
      requires db.Valid()
      modifies this, db
      ensures db.Valid()
      ensures authRequired <==> !isSignedIn
      ensures !isSignedIn ==> !postCreated && unchanged(this) && unchanged(db)
      ensures selectedEmoji == old(selectedEmoji) && showEmojiPicker == old(showEmojiPicker)
      ensures isSignedIn && !(old(HasContent()) && user.Some?) ==>
        !postCreated && unchanged(this) && unchanged(db)
      ensures isSignedIn && old(HasContent()) && user.Some? ==>
        && !isPosting
        && (postCreated <==> old(db.Reachable(faults)) && Add !in faults && id !in old(db.posts))
        && (postCreated ==>
              content == "" &&
              db.posts == old(db.posts)[id := FeedPost(id, Trim(old(content)), old(selectedEmoji),
                                                       user.value.email, defaultAvatarUrl, timestamp, 0, 0, 0)])
        && (!postCreated ==> content == old(content) && db.posts == old(db.posts))
    {
      if !isSignedIn {
        return true, false;
      }
      authRequired := false;
      postCreated := HandleSubmit(db, isSignedIn, user, id, timestamp, faults);
    }

    /** `handleTextareaClick`: calls `onAuthRequired` exactly when signed out. */
    method HandleTextareaClick(isSignedIn: bool) returns (authRequired: bool)
      ensures authRequired <==> !isSignedIn
    {
      authRequired := !isSignedIn;
    }

    /** `handleEmojiClick`: signed out, asks for sign-in; signed in, toggles
        the picker. */
    method HandleEmojiClick(isSignedIn: bool) returns (authRequired: bool)
      modifies this
      ensures authRequired <==> !isSignedIn
      ensures showEmojiPicker == (if isSignedIn then !old(showEmojiPicker) else old(showEmojiPicker))
      ensures content == old(content) && isPosting == old(isPosting) && selectedEmoji == old(selectedEmoji)
    {
      if !isSignedIn {
        return true;
      }
      showEmojiPicker := !showEmojiPicker;
      return false;
    }

    /** `handleEmojiSelect`: takes the emoji and closes the picker. */
    method HandleEmojiSelect(emoji: string)
      modifies this
      ensures selectedEmoji == emoji && !showEmojiPicker
      ensures content == old(content) && isPosting == old(isPosting)
    {
      selectedEmoji := emoji;
      showEmojiPicker := false;
    }
  }
}
