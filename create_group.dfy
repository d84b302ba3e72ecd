/**
 * createGroup (the function the group resolver routes to): the same create path
 * as the handler, except that `createdOn` is the decimal string of the timestamp.
 */
module CreateGroup {
  import opened Wrappers
  import opened KeyCodec
  import opened Store
  import opened GroupEntity
  import Decimal
  import Registry

  /** `Date.now().toString()`: a string that parses back to the timestamp. */
  function CreatedOnString(now: nat): (v: AttrValue)
    ensures v.S? && Decimal.IsDecimal(v.s) && Decimal.ParseNat(v.s) == now
  {
    Decimal.ParseNatToString(now);
    S(Decimal.NatToString(now))
  }

  method CreateGroup(table: Table, tableSetting: Option<string>, input: Record,
                     id: string, now: nat, fault: Option<StoreError>)
    returns (out: Outcome<Record, StoreError>)
    requires table.Valid()
    requires IsCreateGroupInput(input)
    modifies table
    ensures table.Valid()
    ensures out.Returned? <==> table.name == ResolveTableName(tableSetting) && fault.None?
    ensures var g := FromCreateInput(input, id, CreatedOnString(now));
      out.Returned? ==>
        && out.value == GraphQlReturn(g)
        && table.items == old(table.items)[Encode(GroupRef(g.id)) := ToItem(g)]
    ensures out.Threw? ==>
      && table.items == old(table.items)
      && out.error == Rethrown(if fault.Some? then fault.value else ResourceNotFound)
    ensures Registry.Consistent(old(table.items)) ==> Registry.Consistent(table.items)
  {
    var tableName := ResolveTableName(tableSetting);
    var group := FromCreateInput(input, id, CreatedOnString(now));
    var item := ToItem(group);
    if Registry.Consistent(table.items) {
      Registry.ForeignPutPreserves(table.items, GroupRef(group.id), item);
    }
    var err := table.Put(tableName, item, fault);
    if err.None? {
      out := Returned(GraphQlReturn(group));
    } else {
      out := Threw(Rethrown(err.value));
    }
  }
}
