/**
 * GroupEntity: a group's fields, its primary key, its key in the
 * "groups created by a user" index, the item stored for it and the object
 * returned to the API.
 */
module GroupEntity {
  import opened Wrappers
  import opened KeyCodec
  import opened Store

  /** The six properties the constructor copies and the API returns. */
  const GroupFields: set<string> := {"id", "userId", "name", "groupProfilePic", "description", "createdOn"}

  /** A constructed entity. `createdOn` is whatever the caller passed: a number or its string form. */
  datatype Group = Group(
    id: string,
    userId: string,
    name: string,
    groupProfilePic: string,
    description: string,
    createdOn: AttrValue)

  /** The GroupParameters shape: five string properties and a createdOn. */
  predicate IsGroupParameters(p: Record)
  {
    && StrAttr(p, "id").Some? && StrAttr(p, "userId").Some? && StrAttr(p, "name").Some?
    && StrAttr(p, "groupProfilePic").Some? && StrAttr(p, "description").Some?
    && "createdOn" in p
  }

  /** `new GroupEntity(p)`: copies the six properties and ignores any other. */
  function New(p: Record): Group
    requires IsGroupParameters(p)
  {
    Group(p["id"].s, p["userId"].s, p["name"].s, p["groupProfilePic"].s, p["description"].s, p["createdOn"])
  }

  /** `key()`: PK and SK are both GROUP#id, the key of the group family. */
  function Key(g: Group): (k: Key)
    ensures k.0 == k.1
    ensures Decode(k) == Some(GroupRef(g.id))
  {
    DecodeEncode(GroupRef(g.id));
    Encode(GroupRef(g.id))
  }

  /** `gsi1Key()`: the creator's USER# partition, sorted by the group's own SK. */
  function Gsi1Key(g: Group): (k: Key)
    ensures k.0 == Encode(UserRef(g.userId)).0
    ensures k.1 == Key(g).1
  {
    (UserPrefix + g.userId, GroupPrefix + g.id)
  }

  /** `graphQlReturn()`: the six business properties and nothing else. */
  function GraphQlReturn(g: Group): (r: Record)
    ensures r.Keys == GroupFields
  {
    map["id" := S(g.id), "userId" := S(g.userId), "name" := S(g.name),
        "groupProfilePic" := S(g.groupProfilePic), "description" := S(g.description),
        "createdOn" := g.createdOn]
  }

  /** `toItem()`: the keys, the GROUP discriminator and the business properties unchanged. */
  function ToItem(g: Group): (item: Record)
    ensures KeyOf(item) == Some(Key(g))
    ensures Gsi1Of(item) == Some(Gsi1Key(g))
    ensures StrAttr(item, "ENTITY") == Some("GROUP")
    ensures Restrict(item, GroupFields) == GraphQlReturn(g)
    ensures item.Keys == GroupFields + {"PK", "SK", "GSI1PK", "GSI1SK", "ENTITY"}
  {
    var (pk, sk) := Key(g);
    var (gsi1pk, gsi1sk) := Gsi1Key(g);
    map["PK" := S(pk), "SK" := S(sk), "GSI1PK" := S(gsi1pk), "GSI1SK" := S(gsi1sk),
        "id" := S(g.id), "ENTITY" := S("GROUP"),
        "userId" := S(g.userId), "name" := S(g.name), "groupProfilePic" := S(g.groupProfilePic),
        "description" := S(g.description), "createdOn" := g.createdOn]
  }

  /** Reads a stored group item back into the entity it was written from. */
  function FromItem(item: Record): Option<Group>
  {
    if && StrAttr(item, "ENTITY") == Some("GROUP") && KeyOf(item).Some?
       && Decode(KeyOf(item).value).Some? && Decode(KeyOf(item).value).value.GroupRef?
       && IsGroupParameters(item)
       && StrAttr(item, "id") == Some(Decode(KeyOf(item).value).value.groupId)
    then Some(New(item))
    else None
  }

  /** Every stored group item reads back as the entity that produced it. */
  lemma FromItemToItem(g: Group)
    ensures FromItem(ToItem(g)) == Some(g)
  {
    var item := ToItem(g);
    assert IsGroupParameters(item);
  }

  /**
   * Round trip: an entity built from parameters `p` returns exactly the six
   * GroupParameters properties of `p`, field for field.
   */
  lemma GraphQlReturnOfNew(p: Record)
    requires IsGroupParameters(p)
    ensures GraphQlReturn(New(p)) == Restrict(p, GroupFields)
  {
    var r := GraphQlReturn(New(p));
    var q := Restrict(p, GroupFields);
    assert r.Keys == q.Keys;
    forall a | a in r ensures r[a] == q[a] {
    }
  }

  /** Two groups share a primary key exactly when they share an id. */
  lemma KeyInjective(g1: Group, g2: Group)
    ensures Key(g1) == Key(g2) <==> g1.id == g2.id
  {
    EncodeInjective(GroupRef(g1.id), GroupRef(g2.id));
  }

  /**
   * The object the create paths pass to the constructor, `{ id, ...input, createdOn }`:
   * later properties override earlier ones, so the server timestamp always wins,
   * and the generated id stands unless the input carries an `id` of its own.
   */
  function WithServerFields(input: Record, id: string, createdOn: AttrValue): (p: Record)
    ensures p.Keys == input.Keys + {"id", "createdOn"}
    ensures p["createdOn"] == createdOn
    ensures p["id"] == if "id" in input then input["id"] else S(id)
    ensures forall a | a in input && a != "createdOn" :: p[a] == input[a]
  {
    map["id" := S(id)] + input + map["createdOn" := createdOn]
  }

  /** The input of createGroup: the four group properties as strings, and no non-string `id`. */
  predicate IsCreateGroupInput(input: Record)
  {
    && StrAttr(input, "userId").Some? && StrAttr(input, "name").Some?
    && StrAttr(input, "groupProfilePic").Some? && StrAttr(input, "description").Some?
    && ("id" in input ==> input["id"].S?)
  }

  /**
   * `new GroupEntity({ id, ...input, createdOn })`, the entity both create paths
   * build: the server timestamp always wins, the generated id stands unless the
   * input carries its own, and the four group properties come from the input.
   */
  function FromCreateInput(input: Record, id: string, createdOn: AttrValue): (g: Group)
    requires IsCreateGroupInput(input)
    ensures g.createdOn == createdOn
    ensures "id" !in input ==> g.id == id
    ensures && S(g.userId) == input["userId"] && S(g.name) == input["name"]
            && S(g.groupProfilePic) == input["groupProfilePic"] && S(g.description) == input["description"]
  {
    New(WithServerFields(input, id, createdOn))
  }
}
