/**
 * typingIndicator: records whether a user is typing in a group under the key
 * (USER#userId, GROUP#groupId#TYPING). The put is unconditional, so the latest
 * call for a (user, group) pair replaces the previous one.
 */
module TypingIndicator {
  import opened Wrappers
  import opened KeyCodec
  import opened Store
  import Registry

  datatype TypingInput = TypingInput(userId: string, groupId: string, typing: bool)

  function TypingItem(input: TypingInput, id: string, createdOn: nat): (item: Record)
    ensures KeyOf(item) == Some(Encode(TypingRef(input.userId, input.groupId)))
    ensures StrAttr(item, "ENTITY") == Some("TYPING")
    ensures StrAttr(item, "userId") == Some(input.userId) && StrAttr(item, "groupId") == Some(input.groupId)
    ensures Attr(item, "typing") == Some(Bool(input.typing)) && Attr(item, "createdOn") == Some(N(createdOn))
    ensures Attr(item, "id") == Some(S(id))
    ensures item.Keys == {"id", "ENTITY", "PK", "SK", "userId", "groupId", "typing", "createdOn"}
  {
    map["id" := S(id), "ENTITY" := S("TYPING"),
        "PK" := S(UserPrefix + input.userId), "SK" := S(GroupPrefix + input.groupId + TypingSuffix),
        "userId" := S(input.userId), "groupId" := S(input.groupId),
        "typing" := Bool(input.typing), "createdOn" := N(createdOn)]
  }

  /** Two calls write the same item slot exactly when they are for the same (user, group) pair. */
  lemma TypingKeyIdentifiesPair(a: TypingInput, idA: string, atA: nat, b: TypingInput, idB: string, atB: nat)
    ensures KeyOf(TypingItem(a, idA, atA)) == KeyOf(TypingItem(b, idB, atB)) <==>
      a.userId == b.userId && a.groupId == b.groupId
  {
    EncodeInjective(TypingRef(a.userId, a.groupId), TypingRef(b.userId, b.groupId));
  }

  /**
   * A typing key never equals a user key (USER#handle, USER#handle), whether the
   * handle is a username or, as the user entity writes it, an email.
   */
  lemma TypingKeyNeverUserKey(userId: string, groupId: string, handle: string)
    ensures Encode(TypingRef(userId, groupId)) != Encode(UserRef(handle))
  {
    EncodeInjective(TypingRef(userId, groupId), UserRef(handle));
  }

  /**
   * The resolver: on success it returns the input flag and the table holds the
   * new item under the pair's key, nothing else changing; a failed put throws.
   */
  method Handler(table: Table, tableSetting: Option<string>, input: TypingInput,
                 id: string, createdOn: nat, fault: Option<StoreError>)
    returns (out: Outcome<bool, StoreError>)
    requires table.Valid()
    modifies table
    ensures table.Valid()
    ensures out.Returned? <==> table.name == ResolveTableName(tableSetting) && fault.None?
    ensures out.Returned? ==>
      && out.value == input.typing
      && table.items == old(table.items)[Encode(TypingRef(input.userId, input.groupId)) := TypingItem(input, id, createdOn)]
    ensures out.Threw? ==>
      && table.items == old(table.items)
      && out.error == Error(Describe(if fault.Some? then fault.value else ResourceNotFound))
    ensures Registry.Consistent(old(table.items)) ==> Registry.Consistent(table.items)
  {
    var tableName := ResolveTableName(tableSetting);
    var item := TypingItem(input, id, createdOn);
    if Registry.Consistent(table.items) {
      Registry.ForeignPutPreserves(table.items, TypingRef(input.userId, input.groupId), item);
    }
    var err := table.Put(tableName, item, fault);
    if err.None? {
      out := Returned(input.typing);
    } else {
      out := Threw(Error(Describe(err.value)));
    }
  }

  /**
   * Last write wins: two successful calls for the same (user, group) pair leave
   * exactly one item for the pair, holding the second call's values.
   */
  method TypingTwice(table: Table, tableSetting: Option<string>, first: TypingInput, firstId: string, firstAt: nat,
                     second: TypingInput, secondId: string, secondAt: nat)
    returns (out1: Outcome<bool, StoreError>, out2: Outcome<bool, StoreError>)
    requires table.Valid() && table.name == ResolveTableName(tableSetting)
    requires first.userId == second.userId && first.groupId == second.groupId
    modifies table
    ensures out1 == Returned(first.typing) && out2 == Returned(second.typing)
    ensures var k := Encode(TypingRef(second.userId, second.groupId));
      && table.items.Keys == old(table.items).Keys + {k}
      && table.items[k] == TypingItem(second, secondId, secondAt)
      && forall k' | k' in old(table.items) && k' != k :: table.items[k'] == old(table.items)[k']
  {
    out1 := Handler(table, tableSetting, first, firstId, firstAt, None);
    out2 := Handler(table, tableSetting, second, secondId, secondAt, None);
  }
}
