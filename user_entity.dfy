/**
 * UserEntity: a user's fields, its primary key, its stored item and the object
 * returned to the API. As written, this entity keys a user by EMAIL under the
 * USER# prefix, while the registration path (CreateUserAccounts) keys the user
 * row by USERNAME under the same prefix; both are kept as written.
 */
module UserEntity {
  import opened Wrappers
  import opened KeyCodec
  import opened Store

  /** The four properties the constructor copies. */
  const UserFields: set<string> := {"id", "username", "email", "createdOn"}

  datatype User = User(id: string, username: string, email: string, createdOn: string)

  /** The UserParameters shape: four string properties. */
  predicate IsUserParameters(p: Record)
  {
    && StrAttr(p, "id").Some? && StrAttr(p, "username").Some?
    && StrAttr(p, "email").Some? && StrAttr(p, "createdOn").Some?
  }

  /** `new UserEntity(p)`: copies the four properties and ignores any other. */
  function New(p: Record): User
    requires IsUserParameters(p)
  {
    User(p["id"].s, p["username"].s, p["email"].s, p["createdOn"].s)
  }

  /** `key()`: PK and SK are both USER#email. */
  function Key(u: User): (k: Key)
    ensures k.0 == k.1
    ensures Decode(k) == Some(UserRef(u.email))
  {
    DecodeEncode(UserRef(u.email));
    Encode(UserRef(u.email))
  }

  /** `graphQlReturn()`: the four properties plus ENTITY, and no key attributes. */
  function GraphQlReturn(u: User): (r: Record)
    ensures r.Keys == UserFields + {"ENTITY"}
    ensures StrAttr(r, "ENTITY") == Some("USER")
  {
    map["id" := S(u.id), "ENTITY" := S("USER"), "username" := S(u.username),
        "email" := S(u.email), "createdOn" := S(u.createdOn)]
  }

  /** `toItem()`: the key, the USER discriminator and the four properties unchanged. */
  function ToItem(u: User): (item: Record)
    ensures KeyOf(item) == Some(Key(u))
    ensures item.Keys == UserFields + {"ENTITY", "PK", "SK"}
    ensures Restrict(item, UserFields + {"ENTITY"}) == GraphQlReturn(u)
  {
    var (pk, sk) := Key(u);
    map["PK" := S(pk), "SK" := S(sk), "id" := S(u.id), "ENTITY" := S("USER"),
        "username" := S(u.username), "email" := S(u.email), "createdOn" := S(u.createdOn)]
  }

  /** Round trip: the returned object holds exactly the constructor's four properties, plus ENTITY = USER. */
  lemma GraphQlReturnOfNew(p: Record)
    requires IsUserParameters(p)
    ensures GraphQlReturn(New(p)) == Restrict(p, UserFields)["ENTITY" := S("USER")]
  {
    var r := GraphQlReturn(New(p));
    var q := Restrict(p, UserFields)["ENTITY" := S("USER")];
    assert r.Keys == q.Keys;
    forall a | a in r ensures r[a] == q[a] {
    }
  }

  /** The key depends on the email only: two users share a key exactly when they share an email. */
  lemma KeyDependsOnEmailOnly(u1: User, u2: User)
    ensures Key(u1) == Key(u2) <==> u1.email == u2.email
  {
    EncodeInjective(UserRef(u1.email), UserRef(u2.email));
  }

  /** This entity's key is the registration key of the user row for its username only when username and email coincide. */
  lemma KeyDivergesFromRegistration(u: User)
    ensures Key(u) == Encode(UserRef(u.username)) <==> u.email == u.username
  {
    EncodeInjective(UserRef(u.email), UserRef(u.username));
  }
}
