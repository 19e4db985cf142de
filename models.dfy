/** The rows of the Warbler database and the constants the handlers use. */
module Models {

  /** Primary keys are the database's integer ids. */
  type UserId = nat
  type MessageId = nat

  /** A row of the users table. The primary key is the key of the map that
      holds the rows; the password hash is left to the abstract
      authentication predicate. An absent optional field is "". */
  datatype User = User(
    username: string,
    email: string,
    imageUrl: string,
    headerImageUrl: string,
    bio: string,
    location: string)

  /** A row of the messages table. */
  datatype Message = Message(id: MessageId, text: string, timestamp: int, userId: UserId)

  /** Placeholders used when the form leaves an image URL empty. */
  const DefaultImageUrl: string := "/static/images/default-pic.png"
  const DefaultHeaderImageUrl: string := "/static/images/warbler-hero.jpg"

  /** Python's `value or default` on a form string. */
  function OrDefault(value: string, default: string): (r: string)
    ensures value != "" ==> r == value
    ensures value == "" ==> r == default
  {
    if value == "" then default else value
  }

  predicate UsernameTaken(users: map<UserId, User>, username: string) {
    exists id :: id in users && users[id].username == username
  }

  predicate EmailTaken(users: map<UserId, User>, email: string) {
    exists id :: id in users && users[id].email == email
  }

  /** Some user other than `self` already has this username or email. */
  predicate ClashesWithOther(users: map<UserId, User>, self: UserId, username: string, email: string) {
    exists id :: id in users && id != self && (users[id].username == username || users[id].email == email)
  }

  /** Usernames and emails are unique among users. */
  ghost predicate UniqueAccounts(users: map<UserId, User>) {
    forall a, b :: a in users && b in users && a != b ==>
      users[a].username != users[b].username && users[a].email != users[b].email
  }

  /** No two messages share an id. */
  ghost predicate DistinctIds(msgs: seq<Message>) {
    forall i, j :: 0 <= i < j < |msgs| ==> msgs[i].id != msgs[j].id
  }

  /** Inserting a row whose username and email are both free keeps the
      accounts unique. */
  lemma InsertFreshKeepsUnique(users: map<UserId, User>, id: UserId, u: User)
    requires UniqueAccounts(users)
    requires id !in users
    requires !UsernameTaken(users, u.username) && !EmailTaken(users, u.email)
    ensures UniqueAccounts(users[id := u])
  {
  }

  /** Rewriting a row with values that clash with no other row keeps the
      accounts unique. */
  lemma UpdateKeepsUnique(users: map<UserId, User>, id: UserId, u: User)
    requires UniqueAccounts(users)
    requires !ClashesWithOther(users, id, u.username, u.email)
    ensures UniqueAccounts(users[id := u])
  {
  }

  /** Deleting a row keeps the accounts unique. */
  lemma RemoveKeepsUnique(users: map<UserId, User>, id: UserId)
    requires UniqueAccounts(users)
    ensures UniqueAccounts(users - {id})
  {
  }
}
