/**
 * What the registration transaction maintains about the whole table: user rows
 * (keyed USER#username) and email reservations (keyed USEREMAIL#email) come
 * in pairs, and no two user rows record the same email.
 */
module Registry {
  import opened Wrappers
  import opened KeyCodec
  import opened Store

  ghost predicate Consistent(items: map<Key, Record>)
  {
    // every email reservation is backed by a user row recording that email
    && (forall e: string :: Encode(UserEmailRef(e)) in items ==>
          exists u: string :: Encode(UserRef(u)) in items && StrAttr(items[Encode(UserRef(u))], "email") == Some(e))
    // every user row records an email, and that email is reserved
    && (forall u: string :: Encode(UserRef(u)) in items ==>
          && StrAttr(items[Encode(UserRef(u))], "email").Some?
          && Encode(UserEmailRef(StrAttr(items[Encode(UserRef(u))], "email").value)) in items)
    // no two user rows record the same email
    && (forall u1: string, u2: string ::
          Encode(UserRef(u1)) in items && Encode(UserRef(u2)) in items && u1 != u2 ==>
          StrAttr(items[Encode(UserRef(u1))], "email") != StrAttr(items[Encode(UserRef(u2))], "email"))
  }

  /**
   * A put under a key of any other family (group, membership, message, typing
   * indicator) cannot touch a user row or a reservation, so it keeps the table consistent.
   */
  lemma ForeignPutPreserves(items: map<Key, Record>, r: EntityRef, item: Record)
    requires Consistent(items)
    requires !r.UserRef? && !r.UserEmailRef?
    ensures Consistent(items[Encode(r) := item])
  {
    var items' := items[Encode(r) := item];
    forall u: string
      ensures Encode(UserRef(u)) in items' <==> Encode(UserRef(u)) in items
      ensures Encode(UserRef(u)) in items ==> items'[Encode(UserRef(u))] == items[Encode(UserRef(u))]
    {
      EncodeInjective(UserRef(u), r);
    }
    forall e: string
      ensures Encode(UserEmailRef(e)) in items' <==> Encode(UserEmailRef(e)) in items
    {
      EncodeInjective(UserEmailRef(e), r);
    }
    forall e: string | Encode(UserEmailRef(e)) in items'
      ensures exists u: string :: Encode(UserRef(u)) in items' && StrAttr(items'[Encode(UserRef(u))], "email") == Some(e)
    {
      var u: string :| Encode(UserRef(u)) in items && StrAttr(items[Encode(UserRef(u))], "email") == Some(e);
      assert Encode(UserRef(u)) in items';
    }
  }
}
