# Warbler request handlers in Dafny

Warbler is a small Twitter-like web application. Users sign up, log in, post
short messages, follow other users and like messages. This project models the
domain rules of its request handlers (`app.py`). They are modelled as a state
machine over an in-memory store and a session:

- `Wrappers`: the `Option` type for lookups that may find nothing.
- `Models`: the rows of the users and messages tables, the placeholder image
  URLs, and the uniqueness predicates for usernames and emails.
- `Lists`: the Python list operations the handlers apply to a user's
  `following` and `likes` collections. These are `list.remove`, the filtering
  comprehension and the like toggle.
- `Queries`: `Message.query.get`, the newest-first message listing capped at
  100 rows, and the username search of the user index.
- `App`: the class `Warbler` holds the store and the session. The store is the
  users, their `following` and `likes` lists, the messages, and the id
  counters. The session holds at most one `curr_user` id. Each state-changing
  route is a method that checks its guards in the route's order and then
  updates the fields named in its `modifies` clause. Each read-only route is a
  function. Every handler returns an `Outcome`: `Redirect(path)`,
  `Render(view)` or `Abort(status)`.

`Valid()` is the store invariant that every method keeps:

- the follow and like tables have a list for exactly the existing users;
- the id counters are above every id in use;
- message ids are distinct;
- usernames and emails are unique.

Modelling conventions:

- `g.user` is `CurrentUser()`. It is the session's id when that row still
  exists, and `None` otherwise. This matches `User.query.get` returning
  `None` for a deleted user.
- `form.validate_on_submit()` is a `formValid` parameter. The message
  timestamp is a `now` parameter.
- `User.authenticate(username, password)` is a predicate parameter
  `authenticate`. `login` logs in the user who has that username. Usernames
  are unique, so there is at most one.
- An exception that the route does not catch is `Abort(500)`, and the store
  is left unchanged because nothing is committed. This covers `list.remove`
  on a missing element, `User.signup`'s ValueError for an empty password, and
  an IntegrityError at commit.

Behaviour of the code that a reader might not expect, and that the model keeps:

- `/logout` has no login check.
- A wrong current password on the profile form redirects to the homepage.
  It does not produce an authorization error.
- Unfollowing someone who is not followed, or an id with no user, fails with
  an uncaught ValueError (500). It is not a no-op.
- Following oneself is not refused.
- Following someone already followed is not refused by the route either.
  The model assumes that appending a user the loaded list already holds
  stores nothing, so the route redirects to the following page as usual.

## Model

| member | source | states |
|---|---|---|
| `Lists.RemoveFirst` | app.py:257-258 | `list.remove` fails exactly when the element is absent; otherwise the list is one shorter |
| `Lists.RemoveFirstMultiset` | app.py:258 | removal takes away exactly one copy of the element and keeps every other element with its multiplicity |
| `Lists.RemoveFirstSplit` | app.py:258 | it is the first occurrence that is removed; what comes before and after it stays in order |
| `Lists.RemoveUndoesAppend` | app.py:243-258 | removing an id just appended to a list that did not hold it gives back the original list |
| `Lists.Without` | app.py:361 | the comprehension keeps no copy of the unliked message, keeps every other element, and leaves all other multiplicities as they were |
| `Lists.WithoutAbsent` | app.py:361 | filtering out an element that does not occur returns the same list |
| `Lists.WithoutAppendedAbsent` | app.py:361-363 | filtering out an element just appended to a list that did not hold it returns the original list |
| `Lists.Toggle` | app.py:360-363 | the like flips membership of the message and of no other element; removal drops every copy, and an absent message is added once |
| `Lists.ToggleTwice` | app.py:358-363 | toggling twice restores the membership of every element, and restores the exact list when the message was not liked |
| `Models.OrDefault` | app.py:279-282 | the definition of Python's `value or default` on a form string: a non-empty value is kept, an empty one becomes the default |
| `Models.InsertFreshKeepsUnique` | app.py:89-115 | inserting a user whose username and email pass the duplicate checks keeps usernames and emails unique |
| `Models.UpdateKeepsUnique` | app.py:276-285 | a profile update that clashes with no other user keeps usernames and emails unique |
| `Models.RemoveKeepsUnique` | app.py:303 | deleting a user keeps usernames and emails unique |
| `Queries.FindMessage` | app.py:340-343 | the lookup returns the position of the first row with that id, or none exactly when no row has it |
| `Queries.RemoveAtDropsOnlyThatId` | app.py:396-397 | when ids are distinct, deleting the found row removes exactly the message with that id, keeps every other message, and keeps the ids distinct |
| `Queries.ByAuthors` | app.py:420 | the filter keeps exactly the messages whose author is in the author set, each as many times as it occurs in the table, and drops every other message |
| `Queries.Insert` | app.py:421 | inserting into a newest-first listing keeps it newest first and adds exactly that message |
| `Queries.SortNewestFirst` | app.py:421 | `order_by(timestamp.desc())` gives a newest-first permutation of its input |
| `Queries.LimitKeepsNewest` | app.py:421-422 | `limit(100)` (`Queries.Limit`) of a newest-first ordering keeps it newest first; it repeats no entry more often than the eligible messages hold it, loses nothing when at most 100 exist, and cuts off nothing newer than the last entry it keeps |
| `Queries.LimitWithin` | app.py:422 | `limit(100)` keeps a prefix: no entry occurs more often than in the full listing |
| `Queries.Feed` | app.py:418-423 | the listing holds only messages by the given authors, none more often than the table does, is newest first, and has min(100, eligible) entries; it holds every eligible message when at most 100 exist; any eligible message left out is no newer than the 100th entry |
| `Queries.OwnFeed` | app.py:200-206 | the profile listing holds only that author's messages, none more often than the table does, newest first and at most 100; it holds all of them when at most 100 exist, and any left out is no newer than the 100th entry |
| `Queries.SearchUsers` | app.py:167-175 | an empty query lists every user; a non-empty one lists exactly the users whose username contains the query |
| `Queries.ContainsIffOccurs` | app.py:175 | the `%q%` test holds exactly when `q` occurs in the string at some position |
| `Queries.SearchMatchesOccurrence` | app.py:175 | a non-empty search lists a user exactly when the query occurs at some position of that user's username |
| `Queries.ContainsFromPrefix` | app.py:175 | a string contains every substring of its prefixes |
| `Queries.ContainsTransitive` | app.py:175 | substring occurrence is transitive |
| `Queries.SearchNarrows` | app.py:175 | searching for a string that contains `q` lists a subset of the users that the search for `q` lists |
| `Queries.SearchFindsUsername` | app.py:175 | searching for a user's exact username lists that user |
| `App.AuthorSet` | app.py:416 | the definition of the feed's author set: the followed ids plus the user's own id |
| `App.Followers` | app.py:231 | the definition of `user.followers`: exactly the users whose following list holds that user |
| `App.IsFollowing` | tests/test_user_model.py:103-108 | `a.is_following(b)` holds exactly when `a` is among `b`'s followers |
| `App.IsFollowedBy` | tests/test_user_model.py:110-115 | `b.is_followed_by(a)` holds exactly when `a.is_following(b)` does |
| `App.FollowEffects` | tests/test_user_model.py:91-115 | after `a` follows `b`: `a` is following `b` and `b` is followed by `a`; no other user's follows change; and, as the tests check for the reverse relation, `b` following `a` is unchanged when `a != b` |
| `App.UnfollowUndoesFollow` | app.py:243-258 | following `b` and then unfollowing `b`, when `b` was not followed before, restores the following table and ends the follow |
| `App.FollowedPostsReachFeed` | app.py:416-423 | a post by `b` is in `a`'s feed once `a` follows `b` (when the feed is not full), and it is absent once the follow is undone |
| `App.RemovalKeepsStoreValid` | app.py:293-306 | deleting a user's row and lists keeps the store invariant |
| `App.Warbler.CurrentUser` | app.py:53-57 | the definition of `g.user`: the session's id exactly when the key is set and that user exists, and nobody otherwise |
| `App.Warbler.DoLogin` | app.py:60-63 | the session's current-user key is the given id, and that id is the current user |
| `App.Warbler.DoLogout` | app.py:66-70 | the current-user key is gone and nobody is logged in |
| `App.Warbler.Signup` | app.py:73-126 | an invalid form, or a taken username or email, re-renders the form and inserts nothing; an empty password is a 500 with nothing inserted; otherwise exactly one user is inserted under a fresh id, with the image defaults, empty following and likes lists, and that id as the session's current user |
| `App.Warbler.Login` | app.py:130-147 | logs in, and redirects home, exactly when the form is valid, the credentials are accepted and the username exists, and then the session holds that user; otherwise re-renders the form with the session unchanged |
| `App.Warbler.Logout` | app.py:150-157 | always clears the session and redirects to the login page |
| `App.Warbler.AddFollow` | app.py:234-246 | without a login it redirects home with nothing changed; an unknown id is a 404 with nothing changed; a user already followed redirects to the following page with nothing changed; otherwise the id is appended to the user's following list and the two follow relations hold |
| `App.Warbler.StopFollowing` | app.py:249-261 | without a login it redirects home with nothing changed; an unknown or unfollowed id is a 500 with nothing changed; otherwise exactly one copy of the id leaves the user's following list |
| `App.Warbler.Profile` | app.py:264-291 | login gate; an invalid form renders the edit form; a password rejected for the current username changes nothing; a clash with another user is a 500 with nothing changed; otherwise username, email, bio and location are replaced, and empty image URLs become the two placeholders |
| `App.Warbler.DeleteUser` | app.py:293-306 | login gate; otherwise the session is logged out and the user's row and lists are removed |
| `App.Warbler.AddMessage` | app.py:312-334 | login gate; an invalid form renders the new-message form; otherwise exactly one message with a fresh id, the text, the timestamp and the current user as author is appended |
| `App.Warbler.LikeMessage` | app.py:347-367 | login gate; a missing message is a 404 and one's own message a 403, both with likes unchanged; otherwise the user's likes toggle that message: no copy remains if it was liked, and it is added if it was not |
| `App.Warbler.DeleteMessage` | app.py:378-400 | login gate; a missing message is a 404; a non-owner is redirected home with the messages unchanged; for the owner exactly that row is removed, no other message changes, and no message with that id remains |
| `App.Warbler.Homepage` | app.py:406-428 | anonymous users get the landing page; a logged-in user's feed holds only messages by the user or by someone the user follows, none more often than the table does, is newest first, has at most 100 entries, holds every such message when at most 100 exist, and leaves out none newer than its 100th entry |
| `App.Warbler.ShowUser` | app.py:180-207 | an unknown user is a 404, then no login redirects to the login page, then another user's page redirects home; one's own page is rendered with one's own messages, none repeated beyond the table, newest first, at most 100, all of them when at most 100 exist, and none left out newer than the 100th |
| `App.Warbler.ListUsers` | app.py:163-177 | the index lists every user when there is no query, and otherwise exactly the users whose username contains the query |
| `App.Warbler.ShowFollowing` | app.py:210-219 | login gate, then 404 for an unknown user; an existing user's page is rendered with that user's following list |
| `App.Warbler.ShowFollowers` | app.py:222-231 | login gate, then 404 for an unknown user; an existing user's page is rendered with exactly the users who follow that user |
| `App.Warbler.ShowLikes` | app.py:369-376 | login gate, then 404 for an unknown user; an existing user's page is rendered with that user's likes list |
| `App.Warbler.ShowMessage` | app.py:336-344 | a 404 exactly when no message has the id; an existing message's page is rendered and shows the message with that id |

## Left out

- Flask setup, configuration, environment variables, the debug toolbar and `db.create_all` (app.py:1-45, 455-457). These are framework wiring.
- Template rendering, flash messages and `print`. A rendered page is a `View` tag that carries the data passed to the template.
- The non-caching headers of `add_header` and the empty `test` command (app.py:438-453). These are HTTP plumbing.
- Password hashing and the bodies of `User.signup` and `User.authenticate`. models.py is not part of this model. Authentication is a predicate parameter, so the model does not link a signup's password to later logins.
- Form validation. forms.py is not part of this model, so the form's verdict is a parameter, and the model does not bound message text length.
- User deletion cascades. Deleting a user removes only that user's row and its own following and likes lists. Messages by that user, other users' follows of them, and likes of those messages are not modelled, because those cascade rules live in models.py.
- Likes of a deleted message are left in place, for the same reason.
- Signup: the IntegrityError branch (app.py:117-120) cannot be reached in a sequential model, because the duplicate checks have already passed. The model does not cover which of the three duplicate queries matches first, the flash text, or the check-then-insert race between concurrent signups.
- AddFollow: the response to a repeated follow depends on the relationship definition in models.py and on how the ORM flushes a re-appended object, and neither is part of this model. The model assumes a redirect with nothing stored. It does not cover a commit-time IntegrityError.
- SearchUsers: treats the `LIKE '%q%'` pattern as a plain, case-sensitive substring test. SQL wildcard characters inside `q` and database collation are not modelled.
- SortNewestFirst: the order among messages with equal timestamps is the database's. The model puts earlier rows first and proves nothing about that order.
- `User.image_url.default.arg` and `User.header_image_url.default.arg` are read from models.py at signup. This model assumes they are the same placeholders the profile route writes out.
- seed.py: CSV loading and bulk insertion.
- Concurrency between requests. Each handler runs as one atomic step.
