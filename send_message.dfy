/**
 * sendMessage: stores a message under its own MESSAGE# key, listed in its
 * group's partition of the "getMessagesPerGroup" index, with an unconditional
 * put, and returns the message's business fields.
 */
module SendMessage {
  import opened Wrappers
  import opened KeyCodec
  import opened Store
  import Registry

  datatype SendMessageInput = SendMessageInput(userId: string, messageText: string, groupId: string)

  const MessageFields: set<string> := {"id", "userId", "groupId", "messageText", "createdOn"}

  /** The object returned to the caller. */
  function MessageResult(input: SendMessageInput, id: string, createdOn: nat): (r: Record)
    ensures r.Keys == MessageFields
    ensures r["id"] == S(id) && r["createdOn"] == N(createdOn)
    ensures r["userId"] == S(input.userId) && r["groupId"] == S(input.groupId)
    ensures r["messageText"] == S(input.messageText)
  {
    map["id" := S(id), "userId" := S(input.userId), "groupId" := S(input.groupId),
        "messageText" := S(input.messageText), "createdOn" := N(createdOn)]
  }

  /**
   * The stored item: keyed by the message id, indexed under the PK of the
   * group's own record with the message's SK as sort key, and holding exactly
   * the returned fields as its business fields.
   */
  function MessageItem(input: SendMessageInput, id: string, createdOn: nat): (item: Record)
    ensures KeyOf(item) == Some(Encode(MessageRef(id)))
    ensures Gsi2Of(item) == Some((Encode(GroupRef(input.groupId)).0, Encode(MessageRef(id)).1))
    ensures StrAttr(item, "ENTITY") == Some("MESSAGE")
    ensures Restrict(item, MessageFields) == MessageResult(input, id, createdOn)
    ensures item.Keys == MessageFields + {"PK", "SK", "GSI2PK", "GSI2SK", "ENTITY"}
  {
    map["id" := S(id), "ENTITY" := S("MESSAGE"),
        "PK" := S(MessagePrefix + id), "SK" := S(MessagePrefix + id),
        "GSI2PK" := S(GroupPrefix + input.groupId), "GSI2SK" := S(MessagePrefix + id),
        "userId" := S(input.userId), "groupId" := S(input.groupId),
        "messageText" := S(input.messageText), "createdOn" := N(createdOn)]
  }

  /** The keys of the items in the partition GROUP#groupId of the "getMessagesPerGroup" index. */
  ghost function MessagesInGroup(items: map<Key, Record>, groupId: string): set<Key>
  {
    set k | k in items && Gsi2Of(items[k]).Some? && Gsi2Of(items[k]).value.0 == Encode(GroupRef(groupId)).0
  }

  /**
   * Storing a message adds its key to its own group's partition of the index and
   * to no other: every other group's partition only loses the key, in case the
   * put overwrote an item listed there.
   */
  lemma PutMessagePartitions(items: map<Key, Record>, input: SendMessageInput, id: string, createdOn: nat, groupId: string)
    ensures var items' := items[Encode(MessageRef(id)) := MessageItem(input, id, createdOn)];
      MessagesInGroup(items', groupId) ==
        if groupId == input.groupId then MessagesInGroup(items, groupId) + {Encode(MessageRef(id))}
        else MessagesInGroup(items, groupId) - {Encode(MessageRef(id))}
  {
    EncodeInjective(GroupRef(groupId), GroupRef(input.groupId));
    var mk := Encode(MessageRef(id));
    var items' := items[mk := MessageItem(input, id, createdOn)];
    assert Gsi2Of(items'[mk]).value.0 == Encode(GroupRef(groupId)).0 <==> groupId == input.groupId by {
      PrefixOfConcat(GroupPrefix, groupId);
      PrefixOfConcat(GroupPrefix, input.groupId);
    }
  }

  /**
   * The resolver. It succeeds exactly when the table name resolves to this table
   * and the backend answers normally; then the table maps the message key to the
   * item and nothing else changes. A failed put throws `new Error(`${error}`)`
   * and returns nothing.
   */
  method Handler(table: Table, tableSetting: Option<string>, input: SendMessageInput,
                 id: string, createdOn: nat, fault: Option<StoreError>)
    returns (out: Outcome<Record, StoreError>)
    requires table.Valid()
    modifies table
    ensures table.Valid()
    ensures out.Returned? <==> table.name == ResolveTableName(tableSetting) && fault.None?
    ensures out.Returned? ==>
      && out.value == MessageResult(input, id, createdOn)
      && table.items == old(table.items)[Encode(MessageRef(id)) := MessageItem(input, id, createdOn)]
    ensures out.Threw? ==>
      && table.items == old(table.items)
      && out.error == Error(Describe(if fault.Some? then fault.value else ResourceNotFound))
    ensures Registry.Consistent(old(table.items)) ==> Registry.Consistent(table.items)
  {
    var tableName := ResolveTableName(tableSetting);
    var item := MessageItem(input, id, createdOn);
    if Registry.Consistent(table.items) {
      Registry.ForeignPutPreserves(table.items, MessageRef(id), item);
    }
    var err := table.Put(tableName, item, fault);
    if err.None? {
      out := Returned(MessageResult(input, id, createdOn));
    } else {
      out := Threw(Error(Describe(err.value)));
    }
  }
}
