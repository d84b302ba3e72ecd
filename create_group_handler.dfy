/**
 * createGroup (resolver handler): builds a group entity from the input with a
 * generated id and a numeric timestamp, puts its item unconditionally and
 * returns its API projection; a failed put rethrows the backend's error.
 */
module CreateGroupHandler {
  import opened Wrappers
  import opened KeyCodec
  import opened Store
  import opened GroupEntity
  import Registry

  /**
   * On success the table holds `toItem()` of the built entity under
   * (GROUP#id, GROUP#id), nothing else changes, and `graphQlReturn()` is returned.
   */
  method Handler(table: Table, tableSetting: Option<string>, input: Record,
                 id: string, createdOn: nat, fault: Option<StoreError>)
    returns (out: Outcome<Record, StoreError>)
    requires table.Valid()
    requires IsCreateGroupInput(input)
    modifies table
    ensures table.Valid()
    ensures out.Returned? <==> table.name == ResolveTableName(tableSetting) && fault.None?
    ensures var g := FromCreateInput(input, id, N(createdOn));
      out.Returned? ==>
        && out.value == GraphQlReturn(g)
        && table.items == old(table.items)[Encode(GroupRef(g.id)) := ToItem(g)]
    ensures out.Threw? ==>
      && table.items == old(table.items)
      && out.error == Rethrown(if fault.Some? then fault.value else ResourceNotFound)
    ensures Registry.Consistent(old(table.items)) ==> Registry.Consistent(table.items)
  {
    var tableName := ResolveTableName(tableSetting);
    var group := FromCreateInput(input, id, N(createdOn));
    var item := ToItem(group);
    if Registry.Consistent(table.items) {
      Registry.ForeignPutPreserves(table.items, GroupRef(group.id), item);
    }
    var err := table.Put(tableName, item, fault);
    if err.None? {
      out := Returned(GraphQlReturn(group));
    } else {
      out := Threw(Rethrown(err.value));
    }
  }
}
