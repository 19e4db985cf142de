/** The read-only database queries of the handlers: fetching a message by
    id, the newest-first message listings capped at 100 rows, and the
    username search of the user index. */
module Queries {
  import opened Wrappers
  import opened Models

  /** `.limit(100)` of the homepage and profile listings. */
  const FeedLimit: nat := 100

  /** `Message.query.get(id)`: the position of the row with that id. */
  function FindMessage(msgs: seq<Message>, id: MessageId): (r: Option<nat>)
    ensures r.Some? ==> r.value < |msgs| && msgs[r.value].id == id
    ensures r.Some? ==> forall j :: 0 <= j < r.value ==> msgs[j].id != id
    ensures r.None? <==> forall m :: m in msgs ==> m.id != id
  {
    if msgs == [] then None
    else if msgs[0].id == id then Some(0)
    else
      match FindMessage(msgs[1..], id)
      case None => None
      case Some(k) => Some(k + 1)
  }

  /** Deleting the row at `i` leaves exactly the rows with another id when
      ids are distinct, and keeps them distinct. */
  lemma RemoveAtDropsOnlyThatId(msgs: seq<Message>, i: nat)
    requires DistinctIds(msgs) && i < |msgs|
    ensures forall m :: m in msgs[..i] + msgs[i + 1..] <==> m in msgs && m.id != msgs[i].id
    ensures DistinctIds(msgs[..i] + msgs[i + 1..])
  {
    RemoveAtKeepsOthers(msgs, i);
    RemoveAtOnlyOthers(msgs, i);
    RemoveAtKeepsDistinct(msgs, i);
  }

  lemma RemoveAtKeepsOthers(msgs: seq<Message>, i: nat)
    requires i < |msgs|
    ensures forall m :: m in msgs && m.id != msgs[i].id ==> m in msgs[..i] + msgs[i + 1..]
  {
    var r := msgs[..i] + msgs[i + 1..];
    forall m | m in msgs && m.id != msgs[i].id
      ensures m in r
    {
      var k :| 0 <= k < |msgs| && msgs[k] == m;
      if k < i { assert r[k] == m; } else { assert r[k - 1] == m; }
    }
  }

  lemma RemoveAtOnlyOthers(msgs: seq<Message>, i: nat)
    requires DistinctIds(msgs) && i < |msgs|
    ensures forall m :: m in msgs[..i] + msgs[i + 1..] ==> m in msgs && m.id != msgs[i].id
  {
    var r := msgs[..i] + msgs[i + 1..];
    forall m | m in r
      ensures m in msgs && m.id != msgs[i].id
    {
      var k :| 0 <= k < |r| && r[k] == m;
      if k < i { assert m == msgs[k]; } else { assert m == msgs[k + 1]; }
    }
  }

  lemma RemoveAtKeepsDistinct(msgs: seq<Message>, i: nat)
    requires DistinctIds(msgs) && i < |msgs|
    ensures DistinctIds(msgs[..i] + msgs[i + 1..])
  {
    var r := msgs[..i] + msgs[i + 1..];
    forall a, b | 0 <= a < b < |r|
      ensures r[a].id != r[b].id
    {
      var a' := if a < i then a else a + 1;
      var b' := if b < i then b else b + 1;
      assert r[a] == msgs[a'] && r[b] == msgs[b'] && a' < b';
    }
  }

  /** `.filter(Message.user_id.in_(authors))`, keeping table order. */
  function ByAuthors(msgs: seq<Message>, authors: set<UserId>): (r: seq<Message>)
    ensures forall m :: m in r <==> m in msgs && m.userId in authors
    ensures forall m :: multiset(r)[m] == if m.userId in authors then multiset(msgs)[m] else 0
    ensures multiset(r) <= multiset(msgs)
    ensures |r| <= |msgs|
  {
    if msgs == [] then []
    else
      assert msgs == [msgs[0]] + msgs[1..];
      if msgs[0].userId in authors then [msgs[0]] + ByAuthors(msgs[1..], authors)
      else ByAuthors(msgs[1..], authors)
  }

  /** `.order_by(Message.timestamp.desc())` holds of a listing. */
  ghost predicate NewestFirst(s: seq<Message>) {
    forall i, j :: 0 <= i < j < |s| ==> s[i].timestamp >= s[j].timestamp
  }

  /** Inserts `m` into a newest-first listing. */
  function Insert(m: Message, s: seq<Message>): (r: seq<Message>)
    requires NewestFirst(s)
    ensures NewestFirst(r)
    ensures multiset(r) == multiset(s) + multiset{m}
  {
    if s == [] then [m]
    else if m.timestamp >= s[0].timestamp then
      assert s == [s[0]] + s[1..];
      [m] + s
    else
      var rest := Insert(m, s[1..]);
      assert s == [s[0]] + s[1..];
      InsertBehindHead(s[0], m, s[1..], rest);
      [s[0]] + rest
  }

  /** The recursive step of Insert: an entry newer than `m` and than every
      entry of `tail` may precede `m` inserted into `tail`. */
  lemma InsertBehindHead(head: Message, m: Message, tail: seq<Message>, rest: seq<Message>)
    requires NewestFirst(rest) && multiset(rest) == multiset(tail) + multiset{m}
    requires head.timestamp >= m.timestamp
    requires forall j :: 0 <= j < |tail| ==> head.timestamp >= tail[j].timestamp
    ensures NewestFirst([head] + rest)
  {
    forall j | 0 <= j < |rest|
      ensures head.timestamp >= rest[j].timestamp
    {
      assert rest[j] in multiset(rest);
      if rest[j] != m {
        assert rest[j] in multiset(tail);
        var k :| 0 <= k < |tail| && tail[k] == rest[j];
      }
    }
  }

  /** Orders messages newest first. Among equal timestamps the order is the
      database's; this model puts earlier rows first. */
  function SortNewestFirst(s: seq<Message>): (r: seq<Message>)
    ensures NewestFirst(r)
    ensures multiset(r) == multiset(s)
    ensures |r| == |s|
  {
    if s == [] then []
    else
      assert s == [s[0]] + s[1..];
      Insert(s[0], SortNewestFirst(s[1..]))
  }

  /** `.limit(100)`. */
  function Limit(s: seq<Message>): seq<Message> {
    if |s| <= FeedLimit then s else s[..FeedLimit]
  }

  /** The listing shown by the homepage and the profile page:
      messages by `authors`, newest first, at most `FeedLimit` of them. */
  function Feed(msgs: seq<Message>, authors: set<UserId>): (r: seq<Message>)
    ensures forall m :: m in r ==> m in msgs && m.userId in authors
    ensures multiset(r) <= multiset(ByAuthors(msgs, authors)) <= multiset(msgs)
    ensures NewestFirst(r)
    ensures |r| == if |ByAuthors(msgs, authors)| <= FeedLimit then |ByAuthors(msgs, authors)| else FeedLimit
    ensures |ByAuthors(msgs, authors)| <= FeedLimit ==>
              forall m :: m in msgs && m.userId in authors ==> m in r
    ensures forall m :: m in msgs && m.userId in authors && m !in r ==>
              |r| == FeedLimit && m.timestamp <= r[FeedLimit - 1].timestamp
  {
    var eligible := ByAuthors(msgs, authors);
    var sorted := SortNewestFirst(eligible);
    LimitKeepsNewest(sorted, eligible);
    Limit(sorted)
  }

  /** The profile listing: the feed of a single author, stated about that
      author's messages. */
  lemma OwnFeed(msgs: seq<Message>, author: UserId)
    ensures var r := Feed(msgs, {author});
      && (forall m :: m in r ==> m in msgs && m.userId == author)
      && multiset(r) <= multiset(msgs)
      && NewestFirst(r)
      && |r| <= FeedLimit
      && (|ByAuthors(msgs, {author})| <= FeedLimit ==>
            forall m :: m in msgs && m.userId == author ==> m in r)
      && (forall m :: m in msgs && m.userId == author && m !in r ==>
            |r| == FeedLimit && m.timestamp <= r[FeedLimit - 1].timestamp)
  {
    forall m | m in msgs && m.userId == author
      ensures m.userId in {author}
    {
    }
  }

  /** Limiting a newest-first ordering of `eligible` keeps it newest first
      and drawn from `eligible` with no entry repeated more often than there;
      it loses nothing when at most `FeedLimit`
      entries exist, and whatever it cuts off is no newer than the last
      entry it keeps. */
  lemma LimitKeepsNewest(sorted: seq<Message>, eligible: seq<Message>)
    requires NewestFirst(sorted) && multiset(sorted) == multiset(eligible)
    ensures forall m :: m in Limit(sorted) ==> m in eligible
    ensures multiset(Limit(sorted)) <= multiset(eligible)
    ensures NewestFirst(Limit(sorted))
    ensures |Limit(sorted)| == if |eligible| <= FeedLimit then |eligible| else FeedLimit
    ensures |eligible| <= FeedLimit ==> forall m :: m in eligible ==> m in Limit(sorted)
    ensures forall m :: m in eligible && m !in Limit(sorted) ==>
              |Limit(sorted)| == FeedLimit && m.timestamp <= Limit(sorted)[FeedLimit - 1].timestamp
  {
    SameMultisetSameMembers(sorted, eligible);
    LimitWithin(sorted);
    if |sorted| > FeedLimit {
      var kept := sorted[..FeedLimit];
      forall m | m in sorted && m !in kept
        ensures m.timestamp <= kept[FeedLimit - 1].timestamp
      {
        assert forall j :: 0 <= j < FeedLimit ==> sorted[j] == kept[j];
        var k :| 0 <= k < |sorted| && sorted[k] == m;
        assert k >= FeedLimit;
        assert sorted[FeedLimit - 1] == kept[FeedLimit - 1];
      }
    }
  }

  /** Two orderings of the same entries have the same length and members. */
  lemma SameMultisetSameMembers(a: seq<Message>, b: seq<Message>)
    requires multiset(a) == multiset(b)
    ensures |a| == |b|
    ensures forall m :: m in a <==> m in b
  {
    assert |multiset(a)| == |a| && |multiset(b)| == |b|;
    forall m ensures m in a <==> m in b {
      assert m in a <==> m in multiset(a);
      assert m in b <==> m in multiset(b);
    }
  }

  /** `.limit(100)` keeps a prefix: no entry occurs more often than before. */
  lemma LimitWithin(s: seq<Message>)
    ensures multiset(Limit(s)) <= multiset(s)
    ensures forall m :: m in Limit(s) ==> m in s
  {
    if |s| > FeedLimit {
      assert s == s[..FeedLimit] + s[FeedLimit..];
    }
  }

  /** `prefix` is the beginning of `s`. */
  predicate StartsWith(s: string, prefix: string) {
    |prefix| <= |s| && s[..|prefix|] == prefix
  }

  /** `q` occurs somewhere in `s`: the SQL pattern `%q%`. */
  predicate Contains(s: string, q: string)
    decreases |s|
  {
    StartsWith(s, q) || (|s| > 0 && Contains(s[1..], q))
  }

  /** `q` occurs in `s` starting at position `i`. */
  ghost predicate OccursAt(s: string, q: string, i: int) {
    0 <= i && i + |q| <= |s| && s[i..i + |q|] == q
  }

  /** Contains means what it says: `q` occurs in `s` at some position. */
  lemma {:induction false} ContainsIffOccurs(s: string, q: string)
    ensures Contains(s, q) <==> exists i :: OccursAt(s, q, i)
    decreases |s|
  {
    if StartsWith(s, q) {
      assert OccursAt(s, q, 0);
    } else if |s| == 0 {
      assert forall i :: !OccursAt(s, q, i);
    } else {
      ContainsIffOccurs(s[1..], q);
      if Contains(s[1..], q) {
        var i :| OccursAt(s[1..], q, i);
        assert s[1..][i..i + |q|] == s[i + 1..i + 1 + |q|];
        assert OccursAt(s, q, i + 1);
      }
      forall i | OccursAt(s, q, i)
        ensures OccursAt(s[1..], q, i - 1)
      {
        assert i != 0 by { assert s[..|q|] != q; }
        assert s[1..][i - 1..i - 1 + |q|] == s[i..i + |q|];
      }
    }
  }

  /** `User.query.all()` for an empty search, else `username LIKE '%q%'`. */
  function SearchUsers(users: map<UserId, User>, q: string): (r: set<UserId>)
    ensures r <= users.Keys
    ensures q == "" ==> r == users.Keys
    ensures q != "" ==> forall id :: id in r <==> id in users && Contains(users[id].username, q)
  {
    if q == "" then users.Keys
    else set id | id in users && Contains(users[id].username, q)
  }

  lemma {:induction false} ContainsFromPrefix(s: string, p: string, q: string)
    requires StartsWith(s, p) && Contains(p, q)
    ensures Contains(s, q)
    decreases |p|
  {
    if StartsWith(p, q) {
      assert s[..|q|] == p[..|q|];
    } else {
      assert StartsWith(s[1..], p[1..]) by {
        assert s[1..][..|p| - 1] == s[..|p|][1..];
      }
      ContainsFromPrefix(s[1..], p[1..], q);
    }
  }

  /** Occurrence is transitive: a string containing `mid` contains every
      substring of `mid`. */
  lemma {:induction false} ContainsTransitive(s: string, mid: string, q: string)
    requires Contains(s, mid) && Contains(mid, q)
    ensures Contains(s, q)
    decreases |s|
  {
    if StartsWith(s, mid) {
      ContainsFromPrefix(s, mid, q);
    } else {
      ContainsTransitive(s[1..], mid, q);
    }
  }

  /** Refining the search never brings in new users: searching for a string
      that contains `q` lists a subset of the search for `q`. */
  lemma SearchNarrows(users: map<UserId, User>, q: string, longer: string)
    requires Contains(longer, q)
    ensures SearchUsers(users, longer) <= SearchUsers(users, q)
  {
    forall id | id in SearchUsers(users, longer)
      ensures id in SearchUsers(users, q)
    {
      if q != "" && longer != "" {
        ContainsTransitive(users[id].username, longer, q);
      }
    }
  }

  /** A non-empty search lists exactly the users whose username has `q`
      occurring at some position. */
  lemma SearchMatchesOccurrence(users: map<UserId, User>, q: string, id: UserId)
    requires q != ""
    ensures id in SearchUsers(users, q) <==> id in users && exists i :: OccursAt(users[id].username, q, i)
  {
    if id in users {
      ContainsIffOccurs(users[id].username, q);
    }
  }

  /** Searching for a user's exact username lists that user. */
  lemma SearchFindsUsername(users: map<UserId, User>, id: UserId)
    requires id in users
    ensures id in SearchUsers(users, users[id].username)
  {
    var name := users[id].username;
    assert StartsWith(name, name) by { assert name[..|name|] == name; }
  }
}
