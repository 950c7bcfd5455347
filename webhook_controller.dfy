/** The endpoint the identity provider calls when an account is created: it
    copies the new account into the `users` table unless a row with its
    `clerkId` is already there. */
module WebhookController {
  import opened Common

  /** The part of the account payload the handler reads. The address and
      number lists hold each entry's address or number, in payload order; a
      list the payload leaves out is empty. */
  datatype AccountData = AccountData(
    id: Option<string>,
    username: Option<string>,
    firstName: Option<string>,
    lastName: Option<string>,
    emailAddresses: seq<string>,
    phoneNumbers: seq<string>)

  datatype Event = Event(eventType: string, data: Option<AccountData>)

  datatype Role = UserRole | AdminRole

  /** A row of the `users` table; the key is the provider's id. */
  datatype User = User(clerkId: string, username: string, email: Option<string>, phone: Option<string>, role: Role)

  const UserCreated := "user.created"

  /** A string is truthy in JavaScript when it is present and not empty. */
  predicate Truthy(s: Option<string>) {
    s.Some? && s.value != ""
  }

  /** The first and last names joined by a space, a missing one as empty. */
  function FullName(d: AccountData): string {
    d.firstName.GetOr("") + " " + d.lastName.GetOr("")
  }

  /** The account's username when it has one, otherwise its first and last
      names joined by a space and trimmed. */
  function DeriveUsername(d: AccountData): (r: string)
    ensures Truthy(d.username) ==> r == d.username.value
    ensures !Truthy(d.username) ==>
              && (r == [] || (!IsWhitespace(r[0]) && !IsWhitespace(r[|r| - 1])))
              && exists i :: OccursAt(FullName(d), r, i)
  {
    if Truthy(d.username) then d.username.value
    else Trim(FullName(d))
  }

  /** `list?.[0] || null`: the first entry, unless the list is empty or the
      entry is the empty string. */
  function FirstOrNull(entries: seq<string>): (r: Option<string>)
    ensures r.Some? <==> |entries| > 0 && entries[0] != ""
    ensures r.Some? ==> r.value == entries[0]
  {
    if |entries| > 0 && entries[0] != "" then Some(entries[0]) else None
  }

  /** Every row is stored under its own id, and no address belongs to two
      rows (the column is unique; rows without an address do not clash). */
  ghost predicate ValidUsers(users: map<string, User>) {
    && (forall k :: k in users ==> users[k].clerkId == k)
    && (forall k1, k2 :: k1 in users && k2 in users && k1 != k2 && users[k1].email.Some? ==>
          users[k1].email != users[k2].email)
  }

  /** Another row already holds this address. */
  predicate EmailTaken(users: map<string, User>, clerkId: string, email: Option<string>) {
    email.Some? && exists k :: k in users && k != clerkId && users[k].email == email
  }

  /** The row the handler would insert for this account. */
  function NewUser(clerkId: string, d: AccountData): User {
    User(clerkId, DeriveUsername(d), FirstOrNull(d.emailAddresses), FirstOrNull(d.phoneNumbers), UserRole)
  }

  /** The status and the table after the handler processes `e`:
      - another event type answers 400;
      - a payload without data or without an id makes the lookup throw: 500;
      - an account already in the table answers 200 and changes nothing;
      - an address another row holds breaks the unique column: 500;
      - otherwise the account is inserted with the plain user role: 200. */
  function AfterWebhook(users: map<string, User>, e: Event): (r: (int, map<string, User>))
    ensures r.0 != 200 ==> r.1 == users
    ensures r.0 in {200, 400, 500}
    ensures r.0 == 400 <==> e.eventType != UserCreated
    ensures users.Keys <= r.1.Keys
    ensures forall k :: k in users ==> r.1[k] == users[k]
  {
    if e.eventType != UserCreated then (400, users)
    else if e.data.None? || e.data.value.id.None? then (500, users)
    else
      var d := e.data.value;
      var clerkId := d.id.value;
      if clerkId in users then (200, users)
      else
        var u := NewUser(clerkId, d);
        if EmailTaken(users, clerkId, u.email) then (500, users)
        else (200, users[clerkId := u])
  }

  /** A successful creation event leaves exactly one row for the account,
      carrying the plain user role unless the row was already there. */
  lemma WebhookStoresAccount(users: map<string, User>, e: Event)
    requires AfterWebhook(users, e).0 == 200
    ensures e.data.Some? && e.data.value.id.Some?
    ensures var id := e.data.value.id.value;
            var after := AfterWebhook(users, e).1;
            && id in after
            && (id in users ==> after == users)
            && (id !in users ==> after == users[id := NewUser(id, e.data.value)] && after[id].role == UserRole)
  {
  }

  /** How the handler answers an account-creation event: 500 when the
      payload has no data or no id; 200 with the table unchanged when the
      account is already stored; otherwise 200 exactly when no other row
      holds the account's first address, and then the new row is stored
      under the account's id. */
  lemma WebhookCreationOutcome(users: map<string, User>, e: Event)
    requires e.eventType == UserCreated
    ensures e.data.None? || e.data.value.id.None? ==> AfterWebhook(users, e) == (500, users)
    ensures e.data.Some? && e.data.value.id.Some? ==>
              var id := e.data.value.id.value;
              var u := NewUser(id, e.data.value);
              && (id in users ==> AfterWebhook(users, e) == (200, users))
              && (id !in users ==> (AfterWebhook(users, e).0 == 200 <==> !EmailTaken(users, id, u.email)))
              && (id !in users && !EmailTaken(users, id, u.email) ==> AfterWebhook(users, e).1 == users[id := u])
  {
  }

  /** A new account is stored whenever no other row holds its first address:
      in particular when it has no address at all. */
  lemma NewAccountWithoutAddressStored(users: map<string, User>, e: Event)
    requires e.eventType == UserCreated && e.data.Some? && e.data.value.id.Some?
    requires e.data.value.id.value !in users
    requires e.data.value.emailAddresses == [] || e.data.value.emailAddresses[0] == ""
    ensures AfterWebhook(users, e).0 == 200
    ensures AfterWebhook(users, e).1[e.data.value.id.value] == NewUser(e.data.value.id.value, e.data.value)
  {
  }

  /** Processing an event twice has the effect of processing it once, and a
      creation that succeeded succeeds again. */
  lemma {:induction false} WebhookIdempotent(users: map<string, User>, e: Event)
    ensures var once := AfterWebhook(users, e);
            var twice := AfterWebhook(once.1, e);
            && twice.1 == once.1
            && (once.0 == 200 ==> twice.0 == 200)
  {
    var once := AfterWebhook(users, e);
    if once.0 == 200 {
      WebhookStoresAccount(users, e);
    } else {
      assert once.1 == users;
    }
  }

  /** The handler keeps the table's keys and unique addresses intact. */
  lemma {:induction false} WebhookKeepsUsersValid(users: map<string, User>, e: Event)
    requires ValidUsers(users)
    ensures ValidUsers(AfterWebhook(users, e).1)
  {
    var r := AfterWebhook(users, e);
    if r.1 != users {
      var d := e.data.value;
      var id := d.id.value;
      var u := NewUser(id, d);
      assert id !in users && !EmailTaken(users, id, u.email) && r.1 == users[id := u];
      forall k1, k2 | k1 in r.1 && k2 in r.1 && k1 != k2 && r.1[k1].email.Some?
        ensures r.1[k1].email != r.1[k2].email
      {
        if k1 == id {
          assert k2 in users && k2 != id;
        } else if k2 == id {
          assert k1 in users && k1 != id;
        }
      }
    }
  }

  /** Without a username, first and last names that neither start nor end
      with whitespace give "first last". */
  lemma UsernameFromBothNames(d: AccountData, first: string, last: string)
    requires !Truthy(d.username) && d.firstName == Some(first) && d.lastName == Some(last)
    requires first != [] && !IsWhitespace(first[0]) && !IsWhitespace(first[|first| - 1])
    requires last != [] && !IsWhitespace(last[0]) && !IsWhitespace(last[|last| - 1])
    ensures DeriveUsername(d) == first + " " + last
  {
    TrimOfTrimmed(first + " " + last);
  }

  /** Without a username or a last name, a first name that neither starts nor
      ends with whitespace is the username as it stands: the space the join
      adds is trimmed off. */
  lemma UsernameFromFirstNameOnly(d: AccountData, first: string)
    requires !Truthy(d.username) && d.firstName == Some(first) && d.lastName.None?
    requires first != [] && !IsWhitespace(first[0]) && !IsWhitespace(first[|first| - 1])
    ensures DeriveUsername(d) == first
  {
    var s := first + " " + "";
    assert s == first + " ";
    assert TrimStart(s) == s;
    assert s[..|s| - 1] == first;
    assert TrimEnd(s) == TrimEnd(first);
    TrimOfTrimmed(first);
  }

  /** Trimming a string that neither starts nor ends with whitespace leaves
      it as it is. */
  lemma TrimOfTrimmed(s: string)
    requires s == [] || (!IsWhitespace(s[0]) && !IsWhitespace(s[|s| - 1]))
    ensures Trim(s) == s
  {
  }

  class UserTable {
    var users: map<string, User>

    ghost predicate Valid()
      reads this
    {
      ValidUsers(users)
    }

    constructor ()
      ensures Valid() && users == map[]
    {
      users := map[];
    }

    /** POST /webhooks/clerk: answers and updates the table as
        `AfterWebhook` says, and keeps the table valid. */
    method HandleClerkWebhook(e: Event) returns (status: int)
      requires Valid()
      modifies this
      ensures Valid()
      ensures (status, users) == AfterWebhook(old(users), e)
    {
      WebhookKeepsUsersValid(users, e);
      if e.eventType != UserCreated {
        return 400;
      }
      if e.data.None? || e.data.value.id.None? {
        return 500;
      }
      var d := e.data.value;
      var clerkId := d.id.value;
      if clerkId in users {
        return 200;
      }
      var u := NewUser(clerkId, d);
      if EmailTaken(users, clerkId, u.email) {
        return 500;
      }
      users := users[clerkId := u];
      status := 200;
    }
  }
}
