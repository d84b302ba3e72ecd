/**
 * createUserAccount: registers a user by writing, in one all-or-nothing
 * transaction, the user row keyed by username and a reservation row keyed by
 * email, each conditional on its key being absent; a rejected transaction is
 * turned into one of three messages by reading the per-item cancellation
 * reasons in submission order.
 */
module CreateUserAccounts {
  import opened Wrappers
  import opened KeyCodec
  import opened Store
  import Registry

  datatype CreateUserAccountInput = CreateUserAccountInput(username: string, email: string, profilePicKey: string)

  /** The first put: the user row, keyed by username. */
  function UserRowItem(input: CreateUserAccountInput, id: string, createdOn: nat): (item: Record)
    ensures KeyOf(item) == Some(Encode(UserRef(input.username)))
    ensures StrAttr(item, "ENTITY") == Some("USER")
    ensures StrAttr(item, "username") == Some(input.username)
    ensures StrAttr(item, "email") == Some(input.email)
    ensures StrAttr(item, "profilePicKey") == Some(input.profilePicKey)
    ensures item.Keys == {"id", "ENTITY", "PK", "SK", "username", "email", "profilePicKey", "createdOn"}
  {
    map["id" := S(id), "ENTITY" := S("USER"),
        "PK" := S(UserPrefix + input.username), "SK" := S(UserPrefix + input.username),
        "username" := S(input.username), "email" := S(input.email),
        "profilePicKey" := S(input.profilePicKey), "createdOn" := N(createdOn)]
  }

  /** The second put: the email reservation, keyed by email. */
  function EmailReservationItem(input: CreateUserAccountInput, id: string, createdOn: nat): (item: Record)
    ensures KeyOf(item) == Some(Encode(UserEmailRef(input.email)))
    ensures StrAttr(item, "ENTITY") == Some("USER")
    ensures StrAttr(item, "email") == Some(input.email)
    ensures item.Keys == {"id", "ENTITY", "PK", "SK", "email", "createdOn"}
  {
    map["id" := S(id), "ENTITY" := S("USER"),
        "PK" := S(UserEmailPrefix + input.email), "SK" := S(UserEmailPrefix + input.email),
        "email" := S(input.email), "createdOn" := N(createdOn)]
  }

  /**
   * The transaction: both puts conditional on their key being absent, on two
   * different keys, carrying the same generated id and timestamp.
   */
  function Transaction(input: CreateUserAccountInput, id: string, createdOn: nat): (puts: seq<TransactPut>)
    ensures |puts| == 2 && puts[0].keyMustBeAbsent && puts[1].keyMustBeAbsent
    ensures Keyed(puts) && DistinctKeys(puts)
    ensures KeyOf(puts[0].item) == Some(Encode(UserRef(input.username)))
    ensures KeyOf(puts[1].item) == Some(Encode(UserEmailRef(input.email)))
    ensures Attr(puts[0].item, "id") == Attr(puts[1].item, "id") == Some(S(id))
    ensures Attr(puts[0].item, "createdOn") == Attr(puts[1].item, "createdOn") == Some(N(createdOn))
  {
    EncodeInjective(UserRef(input.username), UserEmailRef(input.email));
    [TransactPut(UserRowItem(input, id, createdOn), true),
     TransactPut(EmailReservationItem(input, id, createdOn), true)]
  }

  /** What a successful registration returns: no createdOn, and the stored values of the other fields. */
  function AccountResult(input: CreateUserAccountInput, id: string): (r: Record)
    ensures r.Keys == {"id", "username", "email", "profilePicKey"}
    ensures forall createdOn: nat :: Restrict(UserRowItem(input, id, createdOn), r.Keys) == r
  {
    map["id" := S(id), "username" := S(input.username), "email" := S(input.email),
        "profilePicKey" := S(input.profilePicKey)]
  }

  const UsernameTaken: string := "User with this username already exists."
  const EmailTaken: string := "User with this email already exists."
  const CouldNotCreate: string := "Could not create user account"

  predicate IsCancellation(f: TransactFailure)
  {
    f.code == TransactionCanceled
  }

  /**
   * A cancellation carries the reasons the classification reads: the first one,
   * and the second one as well unless the first already failed its condition.
   */
  predicate Classifiable(f: TransactFailure)
  {
    IsCancellation(f) ==>
      && f.cancellationReasons.Some? && |f.cancellationReasons.value| >= 1
      && (f.cancellationReasons.value[0] != ConditionalCheckFailed ==> |f.cancellationReasons.value| >= 2)
  }

  /**
   * The message thrown for a rejected transaction. The first item whose
   * condition failed decides: the username item before the email item.
   */
  function ErrorMessage(f: TransactFailure): (msg: string)
    requires Classifiable(f)
    ensures msg == UsernameTaken || msg == EmailTaken || msg == CouldNotCreate
    ensures msg == UsernameTaken <==>
      IsCancellation(f) && f.cancellationReasons.value[0] == ConditionalCheckFailed
    ensures msg == EmailTaken <==>
      && IsCancellation(f) && f.cancellationReasons.value[0] != ConditionalCheckFailed
      && f.cancellationReasons.value[1] == ConditionalCheckFailed
  {
    if IsCancellation(f) && f.cancellationReasons.value[0] == ConditionalCheckFailed then UsernameTaken
    else if IsCancellation(f) && f.cancellationReasons.value[1] == ConditionalCheckFailed then EmailTaken
    else CouldNotCreate
  }

  /**
   * Against the table itself (the backend answering normally), the transaction
   * commits exactly when neither key is taken, and otherwise the message names
   * the username when its key is taken (whatever the email's) and else the email.
   */
  lemma ConflictClassification(name: string, items: map<Key, Record>,
                               input: CreateUserAccountInput, id: string, createdOn: nat)
    ensures var f := TransactOutcome(name, name, items, Transaction(input, id, createdOn), None);
      && (f.None? <==> Encode(UserRef(input.username)) !in items && Encode(UserEmailRef(input.email)) !in items)
      && (f.Some? ==>
            && Classifiable(f.value)
            && ErrorMessage(f.value) == (if Encode(UserRef(input.username)) in items then UsernameTaken else EmailTaken))
  {
    var puts := Transaction(input, id, createdOn);
    var f := TransactOutcome(name, name, items, puts, None);
    assert Violates(items, puts[0]) <==> Encode(UserRef(input.username)) in items;
    assert Violates(items, puts[1]) <==> Encode(UserEmailRef(input.email)) in items;
  }

  /** A committed registration keeps user rows and reservations paired, and emails unique. */
  lemma RegistrationPreserves(items: map<Key, Record>, input: CreateUserAccountInput, id: string, createdOn: nat)
    requires Registry.Consistent(items)
    requires Encode(UserRef(input.username)) !in items
    requires Encode(UserEmailRef(input.email)) !in items
    ensures Registry.Consistent(items[Encode(UserRef(input.username)) := UserRowItem(input, id, createdOn)]
                                     [Encode(UserEmailRef(input.email)) := EmailReservationItem(input, id, createdOn)])
  {
    var uk := Encode(UserRef(input.username));
    var ek := Encode(UserEmailRef(input.email));
    var items' := items[uk := UserRowItem(input, id, createdOn)][ek := EmailReservationItem(input, id, createdOn)];
    forall u: string | u != input.username
      ensures Encode(UserRef(u)) in items' <==> Encode(UserRef(u)) in items
      ensures Encode(UserRef(u)) in items ==> items'[Encode(UserRef(u))] == items[Encode(UserRef(u))]
    {
      EncodeInjective(UserRef(u), UserRef(input.username));
      EncodeInjective(UserRef(u), UserEmailRef(input.email));
    }
    forall e: string | e != input.email
      ensures Encode(UserEmailRef(e)) in items' <==> Encode(UserEmailRef(e)) in items
    {
      EncodeInjective(UserEmailRef(e), UserRef(input.username));
      EncodeInjective(UserEmailRef(e), UserEmailRef(input.email));
    }
    EncodeInjective(UserRef(input.username), UserEmailRef(input.email));
    assert items'[uk] == UserRowItem(input, id, createdOn);
    // reservations are backed
    forall e: string | Encode(UserEmailRef(e)) in items'
      ensures exists u: string :: Encode(UserRef(u)) in items' && StrAttr(items'[Encode(UserRef(u))], "email") == Some(e)
    {
      if e == input.email {
        assert Encode(UserRef(input.username)) in items';
      } else {
        var u: string :| Encode(UserRef(u)) in items && StrAttr(items[Encode(UserRef(u))], "email") == Some(e);
        assert u != input.username;
        assert Encode(UserRef(u)) in items';
      }
    }
    // every user row's email is reserved
    forall u: string | Encode(UserRef(u)) in items'
      ensures StrAttr(items'[Encode(UserRef(u))], "email").Some?
      ensures Encode(UserEmailRef(StrAttr(items'[Encode(UserRef(u))], "email").value)) in items'
    {
      if u != input.username {
        var e := StrAttr(items[Encode(UserRef(u))], "email").value;
        if e != input.email {
          assert Encode(UserEmailRef(e)) in items';
        }
      }
    }
    // emails stay unique: every older row's email was reserved, the new one was not
    forall u1: string, u2: string |
      Encode(UserRef(u1)) in items' && Encode(UserRef(u2)) in items' && u1 != u2
      ensures StrAttr(items'[Encode(UserRef(u1))], "email") != StrAttr(items'[Encode(UserRef(u2))], "email")
    {
      if u1 == input.username {
        assert Encode(UserEmailRef(StrAttr(items[Encode(UserRef(u2))], "email").value)) in items;
      } else if u2 == input.username {
        assert Encode(UserEmailRef(StrAttr(items[Encode(UserRef(u1))], "email").value)) in items;
      }
    }
  }

  /**
   * The resolver. Success happens exactly when the table name resolves to this
   * table, the backend answers normally and neither key is taken; then both
   * items are present. Every failure leaves the table unchanged and throws one
   * of the three messages.
   */
  method CreateUserAccount(table: Table, tableSetting: Option<string>, input: CreateUserAccountInput,
                           id: string, createdOn: nat, fault: Option<TransactFailure>)
    returns (out: Outcome<Record, StoreError>)
    requires table.Valid()
    requires fault.Some? ==> Classifiable(fault.value)
    modifies table
    ensures table.Valid()
    ensures out.Returned? <==>
      && table.name == ResolveTableName(tableSetting) && fault.None?
      && Encode(UserRef(input.username)) !in old(table.items)
      && Encode(UserEmailRef(input.email)) !in old(table.items)
    ensures out.Returned? ==>
      && out.value == AccountResult(input, id)
      && table.items == old(table.items)[Encode(UserRef(input.username)) := UserRowItem(input, id, createdOn)]
                                        [Encode(UserEmailRef(input.email)) := EmailReservationItem(input, id, createdOn)]
    ensures out.Threw? ==> out.error.Error? && table.items == old(table.items)
    ensures fault.Some? ==> out == Threw(Error(ErrorMessage(fault.value)))
    ensures fault.None? && table.name != ResolveTableName(tableSetting) ==> out == Threw(Error(CouldNotCreate))
    ensures fault.None? && table.name == ResolveTableName(tableSetting) ==>
      && (Encode(UserRef(input.username)) in old(table.items) ==> out == Threw(Error(UsernameTaken)))
      && ((Encode(UserRef(input.username)) !in old(table.items) && Encode(UserEmailRef(input.email)) in old(table.items))
            ==> out == Threw(Error(EmailTaken)))
    ensures Registry.Consistent(old(table.items)) ==> Registry.Consistent(table.items)
  {
    var tableName := ResolveTableName(tableSetting);
    var puts := Transaction(input, id, createdOn);
    ConflictClassification(table.name, table.items, input, id, createdOn);
    if Registry.Consistent(table.items)
       && Encode(UserRef(input.username)) !in table.items && Encode(UserEmailRef(input.email)) !in table.items {
      RegistrationPreserves(table.items, input, id, createdOn);
    }
    ApplyTwoPuts(table.items, puts[0], puts[1]);
    assert [puts[0], puts[1]] == puts;
    var failure := table.TransactWrite(tableName, puts, fault);
    if failure.None? {
      out := Returned(AccountResult(input, id));
    } else {
      out := Threw(Error(ErrorMessage(failure.value)));
    }
  }

  /** Two registrations sharing an email: the first succeeds, the second is told the email is taken. */
  method SharedEmailScenario() returns (first: Outcome<Record, StoreError>, second: Outcome<Record, StoreError>)
    ensures first == Returned(AccountResult(CreateUserAccountInput("bob", "b@x.com", "bob.png"), "id-1"))
    ensures second == Threw(Error(EmailTaken))
  {
    var table := new Table(DefaultTableName);
    first := CreateUserAccount(table, None, CreateUserAccountInput("bob", "b@x.com", "bob.png"), "id-1", 1000, None);
    second := CreateUserAccount(table, None, CreateUserAccountInput("carol", "b@x.com", "carol.png"), "id-2", 1001, None);
  }

  /**
   * Two registrations of one username: the second is told the username is taken,
   * and the table holds exactly the USER#alice row and the USEREMAIL#a@x.com reservation.
   */
  method SameUsernameScenario() returns (second: Outcome<Record, StoreError>, keys: set<Key>)
    ensures second == Threw(Error(UsernameTaken))
    ensures keys == {Encode(UserRef("alice")), Encode(UserEmailRef("a@x.com"))}
    ensures |keys| == 2
  {
    var table := new Table(DefaultTableName);
    var first := CreateUserAccount(table, None, CreateUserAccountInput("alice", "a@x.com", "a.png"), "id-1", 1000, None);
    second := CreateUserAccount(table, None, CreateUserAccountInput("alice", "a@x.com", "a.png"), "id-2", 1001, None);
    EncodeInjective(UserRef("alice"), UserEmailRef("a@x.com"));
    keys := table.items.Keys;
  }
}
