/**
 * addUserToGroup: records a membership row (GROUP#groupId, USER#userId) with an
 * unconditional put. It carries no ENTITY discriminator and stores its
 * timestamp as a decimal string. The resolver answers true or false and never
 * throws from the put.
 */
module AddUserToGroup {
  import opened Wrappers
  import opened KeyCodec
  import opened Store
  import Decimal
  import Registry

  datatype AddUserToGroupInput = AddUserToGroupInput(userId: string, groupId: string)

  function MembershipItem(input: AddUserToGroupInput, id: string, createdOn: nat): (item: Record)
    ensures KeyOf(item) == Some(Encode(MembershipRef(input.groupId, input.userId)))
    ensures "ENTITY" !in item
    ensures StrAttr(item, "userId") == Some(input.userId) && StrAttr(item, "groupId") == Some(input.groupId)
    ensures Attr(item, "id") == Some(S(id))
    ensures item.Keys == {"id", "PK", "SK", "userId", "groupId", "createdOn"}
    ensures StrAttr(item, "createdOn").Some?
    ensures Decimal.IsDecimal(item["createdOn"].s) && Decimal.ParseNat(item["createdOn"].s) == createdOn
  {
    Decimal.ParseNatToString(createdOn);
    map["id" := S(id), "PK" := S(GroupPrefix + input.groupId), "SK" := S(UserPrefix + input.userId),
        "userId" := S(input.userId), "groupId" := S(input.groupId),
        "createdOn" := S(Decimal.NatToString(createdOn))]
  }

  /** Two calls write the same membership row exactly when they name the same (group, user) pair. */
  lemma MembershipKeyIdentifiesPair(a: AddUserToGroupInput, b: AddUserToGroupInput)
    ensures Encode(MembershipRef(a.groupId, a.userId)) == Encode(MembershipRef(b.groupId, b.userId)) <==> a == b
  {
    EncodeInjective(MembershipRef(a.groupId, a.userId), MembershipRef(b.groupId, b.userId));
  }

  /** A membership row never lands on a group's own record: its SK is USER#, not GROUP#. */
  lemma MembershipKeyNotGroupKey(groupId: string, userId: string, anyGroupId: string)
    ensures Encode(MembershipRef(groupId, userId)) != Encode(GroupRef(anyGroupId))
  {
    EncodeInjective(MembershipRef(groupId, userId), GroupRef(anyGroupId));
  }

  /** The resolver: true after a successful put, false (table unchanged) after a failed one. */
  method Handler(table: Table, tableSetting: Option<string>, input: AddUserToGroupInput,
                 id: string, createdOn: nat, fault: Option<StoreError>)
    returns (added: bool)
    requires table.Valid()
    modifies table
    ensures table.Valid()
    ensures added <==> table.name == ResolveTableName(tableSetting) && fault.None?
    ensures added ==>
      table.items == old(table.items)[Encode(MembershipRef(input.groupId, input.userId)) := MembershipItem(input, id, createdOn)]
    ensures !added ==> table.items == old(table.items)
    ensures Registry.Consistent(old(table.items)) ==> Registry.Consistent(table.items)
  {
    var tableName := ResolveTableName(tableSetting);
    var item := MembershipItem(input, id, createdOn);
    if Registry.Consistent(table.items) {
      Registry.ForeignPutPreserves(table.items, MembershipRef(input.groupId, input.userId), item);
    }
    var err := table.Put(tableName, item, fault);
    added := err.None?;
  }

  /** Adding the same (group, user) pair twice leaves exactly one membership row, the later one, and no other row changes. */
  method AddTwice(table: Table, tableSetting: Option<string>, input: AddUserToGroupInput,
                  firstId: string, firstAt: nat, secondId: string, secondAt: nat)
    returns (added1: bool, added2: bool)
    requires table.Valid() && table.name == ResolveTableName(tableSetting)
    modifies table
    ensures added1 && added2
    ensures var k := Encode(MembershipRef(input.groupId, input.userId));
      && table.items.Keys == old(table.items).Keys + {k}
      && table.items[k] == MembershipItem(input, secondId, secondAt)
      && forall k' | k' in old(table.items) && k' != k :: table.items[k'] == old(table.items)[k']
  {
    added1 := Handler(table, tableSetting, input, firstId, firstAt, None);
    added2 := Handler(table, tableSetting, input, secondId, secondAt, None);
  }
}
