/** The Warbler request handlers over an in-memory store and a session.
    Each mutating route is a method that checks its guards in the order the
    route does and then changes the store; each read-only route is a
    function. Both give the response as an Outcome. */
module App {
  import opened Wrappers
  import opened Lists
  import opened Models
  import opened Queries

  /** Redirect targets. `url_for("homepage")` is "/", which is Root. */
  datatype Path =
    | Root                           // "/"
    | LoginPage                      // "/login"
    | SignupPage                     // "/signup"
    | UserPage(userId: UserId)       // "/users/<id>"
    | FollowingPage(userId: UserId)  // "/users/<id>/following"

  /** Rendered templates, with the data handed to them. */
  datatype View =
    | SignupForm
    | LoginForm
    | AnonHome
    | Home(messages: seq<Message>)
    | UserIndex(users: set<UserId>)
    | UserDetail(user: User, messages: seq<Message>)
    | FollowingList(userId: UserId, following: seq<UserId>)
    | FollowersList(userId: UserId, followers: set<UserId>)
    | LikesList(userId: UserId, likes: seq<MessageId>)
    | EditProfileForm(userId: UserId)
    | NewMessageForm
    | MessageDetail(message: Message)

  /** The response of a handler: a redirect, a rendered page, or an HTTP
      error (`abort(code)`, or 500 for an exception the route does not catch). */
  datatype Outcome = Redirect(path: Path) | Render(view: View) | Abort(status: nat)

  /** `[f.id for f in following] + [me]` as the set used by `in_`. */
  function AuthorSet(following: seq<UserId>, me: UserId): (r: set<UserId>)
    ensures forall id :: id in r <==> id in following || id == me
  {
    (set id | id in following) + {me}
  }

  /** The users whose `following` list holds `userId`. */
  function Followers(following: map<UserId, seq<UserId>>, userId: UserId): (r: set<UserId>)
    ensures r <= following.Keys
    ensures forall id :: id in r <==> id in following && userId in following[id]
  {
    set id | id in following && userId in following[id]
  }

  /** `a.is_following(b)`: `b` is in `a`'s following list, which is the
      same as `a` being among `b`'s followers. */
  predicate IsFollowing(following: map<UserId, seq<UserId>>, a: UserId, b: UserId): (r: bool)
    ensures r <==> a in Followers(following, b)
  {
    a in following && b in following[a]
  }

  /** `b.is_followed_by(a)`: the followers side of the same relation. */
  predicate IsFollowedBy(following: map<UserId, seq<UserId>>, b: UserId, a: UserId): (r: bool)
    ensures r <==> IsFollowing(following, a, b)
  {
    a in Followers(following, b)
  }

  /** Appending `b` to `a`'s following list makes `a` follow `b` and `b` be
      followed by `a`; whether anyone else follows anybody is unchanged. The
      last conjunct is the tests' reverse-relation check, an instance of the
      one before it: `b` does not come to follow `a`. */
  lemma FollowEffects(following: map<UserId, seq<UserId>>, a: UserId, b: UserId)
    requires a in following
    ensures var after := following[a := following[a] + [b]];
      && IsFollowing(after, a, b)
      && IsFollowedBy(after, b, a)
      && (forall c, d :: c != a ==> (IsFollowing(after, c, d) <==> IsFollowing(following, c, d)))
      && (a != b ==> (IsFollowing(after, b, a) <==> IsFollowing(following, b, a)))
  {
    var after := following[a := following[a] + [b]];
    assert b in following[a] + [b];
    assert a in after && b in after[a];
  }

  /** Removing `b` from `a`'s list after appending it to a list without `b`
      ends the follow: `a` no longer follows `b`, and the list is as before. */
  lemma UnfollowUndoesFollow(following: map<UserId, seq<UserId>>, a: UserId, b: UserId)
    requires a in following && b !in following[a]
    ensures var after := following[a := following[a] + [b]];
      && RemoveFirst(after[a], b) == Some(following[a])
      && !IsFollowing(after[a := following[a]], a, b)
      && after[a := following[a]] == following
  {
    RemoveUndoesAppend(following[a], b);
  }

  /** A post by `b` reaches `a`'s homepage feed once `a` follows `b` (when
      the feed is not full) and leaves it again once the follow is undone. */
  lemma FollowedPostsReachFeed(msgs: seq<Message>, following: map<UserId, seq<UserId>>,
                               a: UserId, b: UserId, m: Message)
    requires a in following && b !in following[a] && a != b
    requires m in msgs && m.userId == b
    requires |ByAuthors(msgs, AuthorSet(following[a] + [b], a))| <= FeedLimit
    ensures m in Feed(msgs, AuthorSet(following[a] + [b], a))
    ensures m !in Feed(msgs, AuthorSet(following[a], a))
  {
  }

  /** The store invariant: the following and likes tables have a list for
      exactly the existing users, the id counters are above every id in use,
      message ids are distinct, and usernames and emails are unique. */
  ghost predicate ValidStore(users: map<UserId, User>, messages: seq<Message>,
                             following: map<UserId, seq<UserId>>, likes: map<UserId, seq<MessageId>>,
                             nextUserId: UserId, nextMessageId: MessageId)
  {
    && following.Keys == users.Keys
    && likes.Keys == users.Keys
    && (forall id :: id in users ==> id < nextUserId)
    && (forall i :: 0 <= i < |messages| ==> messages[i].id < nextMessageId)
    && DistinctIds(messages)
    && UniqueAccounts(users)
  }

  /** Deleting a user's row and lists keeps the store valid. */
  lemma RemovalKeepsStoreValid(users: map<UserId, User>, messages: seq<Message>,
                               following: map<UserId, seq<UserId>>, likes: map<UserId, seq<MessageId>>,
                               nextUserId: UserId, nextMessageId: MessageId, id: UserId)
    requires ValidStore(users, messages, following, likes, nextUserId, nextMessageId)
    ensures ValidStore(users - {id}, messages, following - {id}, likes - {id}, nextUserId, nextMessageId)
  {
    RemoveKeepsUnique(users, id);
  }

  /** The store: the users, messages, follows and likes tables, the id
      counters of the database, and the session's `curr_user` key. */
  class Warbler {
    var users: map<UserId, User>
    var messages: seq<Message>
    var following: map<UserId, seq<UserId>>
    var likes: map<UserId, seq<MessageId>>
    var session: Option<UserId>
    var nextUserId: UserId
    var nextMessageId: MessageId

    ghost predicate Valid()
      reads this
    {
      ValidStore(users, messages, following, likes, nextUserId, nextMessageId)
    }

    /** `g.user`: the session's user when the key is set and the row exists. */
    function CurrentUser(): (r: Option<UserId>)
      reads this
      ensures r.Some? <==> session.Some? && session.value in users
      ensures r.Some? ==> r == session
    {
      if session.Some? && session.value in users then session else None
    }

    constructor ()
      ensures Valid()
      ensures users == map[] && messages == [] && following == map[] && likes == map[]
      ensures session == None
    {
      users, messages, following, likes := map[], [], map[], map[];
      session := None;
      nextUserId, nextMessageId := 1, 1;
    }

    /** `do_login`: sets the session's `curr_user` key. */
    method DoLogin(id: UserId)
      requires Valid() && id in users
      modifies this`session
      ensures Valid()
      ensures session == Some(id) && CurrentUser() == Some(id)
    {
      session := Some(id);
    }

    /** `do_logout`: deletes the `curr_user` key when present. */
    method DoLogout()
      requires Valid()
      modifies this`session
      ensures Valid()
      ensures session == None && CurrentUser() == None
    {
      if session.Some? {
        session := None;
      }
    }

    /** The `/signup` route. The form's fields come in as strings; an absent
        optional field is "". */
    method Signup(formValid: bool, username: string, password: string, email: string,
                  imageUrl: string, bio: string, location: string, headerImageUrl: string)
      returns (out: Outcome)
      requires Valid()
      modifies this`users, this`following, this`likes, this`nextUserId, this`session
      ensures Valid()
      ensures !formValid ==> out == Render(SignupForm) && unchanged(this)
      ensures formValid && (UsernameTaken(old(users), username) || EmailTaken(old(users), email)) ==>
                out == Render(SignupForm) && unchanged(this)
      ensures formValid && !UsernameTaken(old(users), username) && !EmailTaken(old(users), email) && password == "" ==>
                out == Abort(500) && unchanged(this)
      ensures formValid && !UsernameTaken(old(users), username) && !EmailTaken(old(users), email) && password != "" ==>
                var id := old(nextUserId);
                && out == Redirect(Root)
                && id !in old(users)
                && users == old(users)[id := User(username, email, OrDefault(imageUrl, DefaultImageUrl),
                                                  OrDefault(headerImageUrl, DefaultHeaderImageUrl), bio, location)]
                && following == old(following)[id := []]
                && likes == old(likes)[id := []]
                && messages == old(messages)
                && session == Some(id) && CurrentUser() == Some(id)
      ensures out.Redirect? <==> formValid && !UsernameTaken(old(users), username) && !EmailTaken(old(users), email) && password != ""
    {
      if !formValid {
        return Render(SignupForm);
      }
      // Whatever the first of the three duplicate queries selects, every
      // successful one re-renders the form.
      if UsernameTaken(users, username) || EmailTaken(users, email) {
        return Render(SignupForm);
      }
      // User.signup refuses an empty password with an uncaught ValueError.
      if password == "" {
        return Abort(500);
      }
      var id := nextUserId;
      var user := User(username, email, OrDefault(imageUrl, DefaultImageUrl),
                       OrDefault(headerImageUrl, DefaultHeaderImageUrl), bio, location);
      InsertFreshKeepsUnique(users, id, user);
      users := users[id := user];
      following := following[id := []];
      likes := likes[id := []];
      nextUserId := nextUserId + 1;
      DoLogin(id);
      return Redirect(Root);
    }

    /** The `/login` route. `authenticate` is `User.authenticate` as a
        predicate on (username, password); the user it returns is the one
        with that username. */
    method Login(formValid: bool, username: string, password: string,
                 authenticate: (string, string) -> bool)
      returns (out: Outcome)
      requires Valid()
      modifies this`session
      ensures Valid()
      ensures out.Redirect? <==> formValid && authenticate(username, password) && UsernameTaken(users, username)
      ensures out.Redirect? ==> out == Redirect(Root) && session.Some? && session.value in users
                                && users[session.value].username == username
      ensures !out.Redirect? ==> out == Render(LoginForm) && session == old(session)
    {
      if formValid && authenticate(username, password) && UsernameTaken(users, username) {
        var id :| id in users && users[id].username == username;
        DoLogin(id);
        return Redirect(Root);
      }
      return Render(LoginForm);
    }

    /** The `/logout` route; it has no login check. */
    method Logout() returns (out: Outcome)
      requires Valid()
      modifies this`session
      ensures Valid()
      ensures out == Redirect(LoginPage) && session == None && CurrentUser() == None
    {
      DoLogout();
      return Redirect(LoginPage);
    }

    /** The `/users/follow/<follow_id>` route. Following oneself is not
        refused. Appending a user the list already holds is taken to store
        nothing: the ORM sees no new follows row, and the route redirects as
        usual. */
    method AddFollow(followId: UserId) returns (out: Outcome)
      requires Valid()
      modifies this`following
      ensures Valid()
      ensures old(CurrentUser()).None? ==> out == Redirect(Root) && unchanged(this)
      ensures old(CurrentUser()).Some? && followId !in users ==> out == Abort(404) && unchanged(this)
      ensures old(CurrentUser()).Some? && followId in users &&
              IsFollowing(old(following), old(CurrentUser()).value, followId) ==>
                out == Redirect(FollowingPage(old(CurrentUser()).value)) && unchanged(this)
      ensures old(CurrentUser()).Some? && followId in users &&
              !IsFollowing(old(following), old(CurrentUser()).value, followId) ==>
                var me := old(CurrentUser()).value;
                && out == Redirect(FollowingPage(me))
                && following == old(following)[me := old(following)[me] + [followId]]
                && IsFollowing(following, me, followId)
                && IsFollowedBy(following, followId, me)
    {
      var me := CurrentUser();
      if me.None? {
        return Redirect(Root);
      }
      if followId !in users {
        return Abort(404);
      }
      if IsFollowing(following, me.value, followId) {
        return Redirect(FollowingPage(me.value));
      }
      FollowEffects(following, me.value, followId);
      following := following[me.value := following[me.value] + [followId]];
      return Redirect(FollowingPage(me.value));
    }

    /** The `/users/stop-following/<follow_id>` route. `User.query.get`
        gives None for a missing id and `list.remove` raises ValueError for
        an element not in the list; neither is caught, so both are a 500. */
    method StopFollowing(followId: UserId) returns (out: Outcome)
      requires Valid()
      modifies this`following
      ensures Valid()
      ensures old(CurrentUser()).None? ==> out == Redirect(Root) && unchanged(this)
      ensures old(CurrentUser()).Some? && (followId !in users || followId !in old(following)[old(CurrentUser()).value]) ==>
                out == Abort(500) && unchanged(this)
      ensures old(CurrentUser()).Some? && followId in users && followId in old(following)[old(CurrentUser()).value] ==>
                var me := old(CurrentUser()).value;
                && out == Redirect(FollowingPage(me))
                && following == old(following)[me := RemoveFirst(old(following)[me], followId).value]
                && multiset(following[me]) == multiset(old(following)[me]) - multiset{followId}
    {
      var me := CurrentUser();
      if me.None? {
        return Redirect(Root);
      }
      if followId !in users {
        return Abort(500);
      }
      var removed := RemoveFirst(following[me.value], followId);
      if removed.None? {
        return Abort(500);
      }
      RemoveFirstMultiset(following[me.value], followId);
      following := following[me.value := removed.value];
      return Redirect(FollowingPage(me.value));
    }

    /** The `/users/profile` route. `authenticate` is `User.authenticate`
        applied to the user's CURRENT username and the password typed into
        the form. A username or email held by another user violates the
        table's unique columns at commit: an uncaught IntegrityError. */
    method Profile(formValid: bool, password: string, username: string, email: string,
                   imageUrl: string, bio: string, location: string, headerImageUrl: string,
                   authenticate: (string, string) -> bool)
      returns (out: Outcome)
      requires Valid()
      modifies this`users
      ensures Valid()
      ensures old(CurrentUser()).None? ==> out == Redirect(Root) && unchanged(this)
      ensures old(CurrentUser()).Some? && !formValid ==>
                out == Render(EditProfileForm(old(CurrentUser()).value)) && unchanged(this)
      ensures old(CurrentUser()).Some? && formValid &&
              !authenticate(old(users)[old(CurrentUser()).value].username, password) ==>
                out == Redirect(Root) && unchanged(this)
      ensures old(CurrentUser()).Some? && formValid &&
              authenticate(old(users)[old(CurrentUser()).value].username, password) &&
              ClashesWithOther(old(users), old(CurrentUser()).value, username, email) ==>
                out == Abort(500) && unchanged(this)
      ensures old(CurrentUser()).Some? && formValid &&
              authenticate(old(users)[old(CurrentUser()).value].username, password) &&
              !ClashesWithOther(old(users), old(CurrentUser()).value, username, email) ==>
                var me := old(CurrentUser()).value;
                && out == Redirect(UserPage(me))
                && users == old(users)[me := User(username, email, OrDefault(imageUrl, DefaultImageUrl),
                                                  OrDefault(headerImageUrl, DefaultHeaderImageUrl), bio, location)]
                && users[me].imageUrl == (if imageUrl == "" then DefaultImageUrl else imageUrl)
                && users[me].headerImageUrl == (if headerImageUrl == "" then DefaultHeaderImageUrl else headerImageUrl)
    {
      var me := CurrentUser();
      if me.None? {
        return Redirect(Root);
      }
      if !formValid {
        return Render(EditProfileForm(me.value));
      }
      if !authenticate(users[me.value].username, password) {
        return Redirect(Root);
      }
      if ClashesWithOther(users, me.value, username, email) {
        return Abort(500);
      }
      var updated := User(username, email, OrDefault(imageUrl, DefaultImageUrl),
                          OrDefault(headerImageUrl, DefaultHeaderImageUrl), bio, location);
      UpdateKeepsUnique(users, me.value, updated);
      users := users[me.value := updated];
      return Redirect(UserPage(me.value));
    }

    /** The `/users/delete` route: logs out, then deletes the user's row
        together with its own following and likes lists. */
    method DeleteUser() returns (out: Outcome)
      requires Valid()
      modifies this`users, this`following, this`likes, this`session
      ensures Valid()
      ensures old(CurrentUser()).None? ==> out == Redirect(Root) && unchanged(this)
      ensures old(CurrentUser()).Some? ==>
                var me := old(CurrentUser()).value;
                && out == Redirect(SignupPage)
                && users == old(users) - {me}
                && following == old(following) - {me}
                && likes == old(likes) - {me}
                && session == None && CurrentUser() == None
    {
      var me := CurrentUser();
      if me.None? {
        return Redirect(Root);
      }
      var id := me.value;
      RemovalKeepsStoreValid(users, messages, following, likes, nextUserId, nextMessageId, id);
      DoLogout();
      users, following, likes := users - {id}, following - {id}, likes - {id};
      return Redirect(SignupPage);
    }

    /** The `/messages/new` route. `now` is the timestamp the database gives
        the new row. */
    method AddMessage(formValid: bool, text: string, now: int) returns (out: Outcome)
      requires Valid()
      modifies this`messages, this`nextMessageId
      ensures Valid()
      ensures old(CurrentUser()).None? ==> out == Redirect(Root) && unchanged(this)
      ensures old(CurrentUser()).Some? && !formValid ==> out == Render(NewMessageForm) && unchanged(this)
      ensures old(CurrentUser()).Some? && formValid ==>
                var me := old(CurrentUser()).value;
                && out == Redirect(UserPage(me))
                && messages == old(messages) + [Message(old(nextMessageId), text, now, me)]
                && (forall m :: m in old(messages) ==> m.id != old(nextMessageId))
    {
      var me := CurrentUser();
      if me.None? {
        return Redirect(Root);
      }
      if !formValid {
        return Render(NewMessageForm);
      }
      messages := messages + [Message(nextMessageId, text, now, me.value)];
      nextMessageId := nextMessageId + 1;
      return Redirect(UserPage(me.value));
    }

    /** The `/users/add_like/<message_id>` route: toggles the like. */
    method LikeMessage(messageId: MessageId) returns (out: Outcome)
      requires Valid()
      modifies this`likes
      ensures Valid()
      ensures old(CurrentUser()).None? ==> out == Redirect(Root) && unchanged(this)
      ensures old(CurrentUser()).Some? && FindMessage(messages, messageId).None? ==>
                out == Abort(404) && unchanged(this)
      ensures old(CurrentUser()).Some? && FindMessage(messages, messageId).Some? &&
              messages[FindMessage(messages, messageId).value].userId == old(CurrentUser()).value ==>
                out == Abort(403) && unchanged(this)
      ensures old(CurrentUser()).Some? && FindMessage(messages, messageId).Some? &&
              messages[FindMessage(messages, messageId).value].userId != old(CurrentUser()).value ==>
                var me := old(CurrentUser()).value;
                && out == Redirect(Root)
                && likes == old(likes)[me := Toggle(old(likes)[me], messageId)]
                && (messageId in likes[me] <==> messageId !in old(likes)[me])
                && (messageId in old(likes)[me] ==> multiset(likes[me])[messageId] == 0)
    {
      var me := CurrentUser();
      if me.None? {
        return Redirect(Root);
      }
      var found := FindMessage(messages, messageId);
      if found.None? {
        return Abort(404);
      }
      if messages[found.value].userId == me.value {
        return Abort(403);
      }
      likes := likes[me.value := Toggle(likes[me.value], messageId)];
      return Redirect(Root);
    }

    /** The `/messages/<message_id>/delete` route. */
    method DeleteMessage(messageId: MessageId) returns (out: Outcome)
      requires Valid()
      modifies this`messages
      ensures Valid()
      ensures old(CurrentUser()).None? ==> out == Redirect(Root) && unchanged(this)
      ensures old(CurrentUser()).Some? && FindMessage(old(messages), messageId).None? ==>
                out == Abort(404) && unchanged(this)
      ensures old(CurrentUser()).Some? && FindMessage(old(messages), messageId).Some? &&
              old(messages)[FindMessage(old(messages), messageId).value].userId != old(CurrentUser()).value ==>
                out == Redirect(Root) && unchanged(this)
      ensures old(CurrentUser()).Some? && FindMessage(old(messages), messageId).Some? &&
              old(messages)[FindMessage(old(messages), messageId).value].userId == old(CurrentUser()).value ==>
                var i := FindMessage(old(messages), messageId).value;
                && out == Redirect(UserPage(old(CurrentUser()).value))
                && messages == old(messages)[..i] + old(messages)[i + 1..]
                && (forall m :: m in messages <==> m in old(messages) && m.id != messageId)
    {
      var me := CurrentUser();
      if me.None? {
        return Redirect(Root);
      }
      var found := FindMessage(messages, messageId);
      if found.None? {
        return Abort(404);
      }
      var i := found.value;
      if messages[i].userId != me.value {
        return Redirect(Root);
      }
      RemoveAtDropsOnlyThatId(messages, i);
      messages := messages[..i] + messages[i + 1..];
      return Redirect(UserPage(me.value));
    }

    /** The `/` route: the anonymous landing page, or the newest messages of
        the user and of everyone the user follows. */
    function Homepage(): (out: Outcome)
      requires Valid()
      reads this
      ensures CurrentUser().None? ==> out == Render(AnonHome)
      ensures CurrentUser().Some? ==>
                var me := CurrentUser().value;
                && out.Render? && out.view.Home?
                && (forall m :: m in out.view.messages ==>
                      m in messages && (m.userId == me || m.userId in following[me]))
                && multiset(out.view.messages) <= multiset(messages)
                && NewestFirst(out.view.messages)
                && |out.view.messages| <= FeedLimit
                && (|ByAuthors(messages, AuthorSet(following[me], me))| <= FeedLimit ==>
                      forall m :: m in messages && (m.userId == me || m.userId in following[me]) ==>
                        m in out.view.messages)
                && (forall m :: m in messages && (m.userId == me || m.userId in following[me])
                                  && m !in out.view.messages ==>
                        |out.view.messages| == FeedLimit &&
                        m.timestamp <= out.view.messages[FeedLimit - 1].timestamp)
    {
      match CurrentUser()
      case None => Render(AnonHome)
      case Some(me) => Render(Home(Feed(messages, AuthorSet(following[me], me))))
    }

    /** The `/users/<user_id>` route: 404, then the login check, then the
        check that the page is the user's own, then that user's newest
        messages. */
    function ShowUser(userId: UserId): (out: Outcome)
      requires Valid()
      reads this
      ensures userId !in users ==> out == Abort(404)
      ensures userId in users && CurrentUser().None? ==> out == Redirect(LoginPage)
      ensures userId in users && CurrentUser().Some? && CurrentUser().value != userId ==> out == Redirect(Root)
      ensures userId in users && CurrentUser() == Some(userId) ==>
                && out.Render? && out.view.UserDetail? && out.view.user == users[userId]
                && (forall m :: m in out.view.messages ==> m in messages && m.userId == userId)
                && multiset(out.view.messages) <= multiset(messages)
                && NewestFirst(out.view.messages)
                && |out.view.messages| <= FeedLimit
                && (|ByAuthors(messages, {userId})| <= FeedLimit ==>
                      forall m :: m in messages && m.userId == userId ==> m in out.view.messages)
                && (forall m :: m in messages && m.userId == userId && m !in out.view.messages ==>
                      |out.view.messages| == FeedLimit &&
                      m.timestamp <= out.view.messages[FeedLimit - 1].timestamp)
    {
      if userId !in users then Abort(404)
      else if CurrentUser().None? then Redirect(LoginPage)
      else if CurrentUser().value != userId then Redirect(Root)
      else
        OwnFeed(messages, userId);
        Render(UserDetail(users[userId], Feed(messages, {userId})))
    }

    /** The `/users` route, with the `q` query parameter ("" when absent). */
    function ListUsers(q: string): (out: Outcome)
      reads this
      ensures out.Render? && out.view.UserIndex? && out.view.users <= users.Keys
      ensures q == "" ==> out.view.users == users.Keys
      ensures q != "" ==> forall id :: id in out.view.users <==> id in users && Contains(users[id].username, q)
    {
      Render(UserIndex(SearchUsers(users, q)))
    }

    /** The `/users/<user_id>/following` route. */
    function ShowFollowing(userId: UserId): (out: Outcome)
      requires Valid()
      reads this
      ensures CurrentUser().None? ==> out == Redirect(Root)
      ensures CurrentUser().Some? && userId !in users ==> out == Abort(404)
      ensures CurrentUser().Some? && userId in users ==> out == Render(FollowingList(userId, following[userId]))
    {
      if CurrentUser().None? then Redirect(Root)
      else if userId !in users then Abort(404)
      else Render(FollowingList(userId, following[userId]))
    }

    /** The `/users/<user_id>/followers` route. */
    function ShowFollowers(userId: UserId): (out: Outcome)
      requires Valid()
      reads this
      ensures CurrentUser().None? ==> out == Redirect(Root)
      ensures CurrentUser().Some? && userId !in users ==> out == Abort(404)
      ensures CurrentUser().Some? && userId in users ==>
                && out.Render? && out.view.FollowersList? && out.view.userId == userId
                && (forall id :: id in out.view.followers <==> IsFollowing(following, id, userId))
    {
      if CurrentUser().None? then Redirect(Root)
      else if userId !in users then Abort(404)
      else Render(FollowersList(userId, Followers(following, userId)))
    }

    /** The `/users/<user_id>/likes` route. */
    function ShowLikes(userId: UserId): (out: Outcome)
      requires Valid()
      reads this
      ensures CurrentUser().None? ==> out == Redirect(Root)
      ensures CurrentUser().Some? && userId !in users ==> out == Abort(404)
      ensures CurrentUser().Some? && userId in users ==> out == Render(LikesList(userId, likes[userId]))
    {
      if CurrentUser().None? then Redirect(Root)
      else if userId !in users then Abort(404)
      else Render(LikesList(userId, likes[userId]))
    }

    /** The `/messages/<message_id>` route; no login needed. */
    function ShowMessage(messageId: MessageId): (out: Outcome)
      reads this
      ensures out == Abort(404) <==> forall m :: m in messages ==> m.id != messageId
      ensures (exists m :: m in messages && m.id == messageId) ==>
                && out.Render? && out.view.MessageDetail?
                && out.view.message in messages && out.view.message.id == messageId
    {
      match FindMessage(messages, messageId)
      case None => Abort(404)
      case Some(i) => Render(MessageDetail(messages[i]))
    }
  }
}
