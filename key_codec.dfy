/**
 * The single-table key scheme. Every entity is stored under a primary key
 * (PK, SK) built by concatenating a fixed prefix with the entity's natural
 * identifiers. `Encode` builds the key of each family, `Decode` recovers the
 * family and the identifiers from a key, and the round trip between them shows
 * that no two entities, of the same family or of different families, share a key.
 */
module KeyCodec {
  import opened Wrappers

  /** A primary key (PK, SK); secondary-index key pairs have the same shape. */
  type Key = (string, string)

  const UserPrefix: string := "USER#"
  const UserEmailPrefix: string := "USEREMAIL#"
  const GroupPrefix: string := "GROUP#"
  const MessagePrefix: string := "MESSAGE#"
  const TypingSuffix: string := "#TYPING"

  /** The natural identifiers of each key family written by the create paths. */
  datatype EntityRef =
    | UserRef(handle: string)                       // (USER#h, USER#h)
    | UserEmailRef(email: string)                   // (USEREMAIL#e, USEREMAIL#e)
    | GroupRef(groupId: string)                     // (GROUP#g, GROUP#g)
    | MembershipRef(groupId: string, userId: string) // (GROUP#g, USER#u)
    | MessageRef(messageId: string)                 // (MESSAGE#m, MESSAGE#m)
    | TypingRef(userId: string, groupId: string)    // (USER#u, GROUP#g#TYPING)

  function Encode(r: EntityRef): Key
  {
    match r
    case UserRef(h) => (UserPrefix + h, UserPrefix + h)
    case UserEmailRef(e) => (UserEmailPrefix + e, UserEmailPrefix + e)
    case GroupRef(g) => (GroupPrefix + g, GroupPrefix + g)
    case MembershipRef(g, u) => (GroupPrefix + g, UserPrefix + u)
    case MessageRef(m) => (MessagePrefix + m, MessagePrefix + m)
    case TypingRef(u, g) => (UserPrefix + u, GroupPrefix + g + TypingSuffix)
  }

  predicate HasSuffix(s: string, suffix: string)
  {
    |suffix| <= |s| && s[|s| - |suffix|..] == suffix
  }

  /** Recovers the family and natural identifiers of a key, or None for a key no create path writes. */
  function Decode(k: Key): Option<EntityRef>
  {
    var (pk, sk) := k;
    if UserEmailPrefix <= pk then
      if sk == pk then Some(UserEmailRef(pk[|UserEmailPrefix|..])) else None
    else if UserPrefix <= pk then
      if sk == pk then Some(UserRef(pk[|UserPrefix|..]))
      else if GroupPrefix <= sk && HasSuffix(sk, TypingSuffix) && |GroupPrefix| + |TypingSuffix| <= |sk| then
        Some(TypingRef(pk[|UserPrefix|..], sk[|GroupPrefix|..|sk| - |TypingSuffix|]))
      else None
    else if GroupPrefix <= pk then
      if sk == pk then Some(GroupRef(pk[|GroupPrefix|..]))
      else if UserPrefix <= sk then Some(MembershipRef(pk[|GroupPrefix|..], sk[|UserPrefix|..]))
      else None
    else if MessagePrefix <= pk && sk == pk then Some(MessageRef(pk[|MessagePrefix|..]))
    else None
  }

  lemma PrefixOfConcat(p: string, x: string)
    ensures p <= p + x && (p + x)[|p|..] == x
  {
    assert (p + x)[..|p|] == p;
  }

  /** A key of the USER# families never starts with USEREMAIL#, and the other prefixes differ at their first letter. */
  lemma PrefixesDisjoint(x: string)
    ensures !(UserEmailPrefix <= UserPrefix + x)
    ensures !(UserPrefix <= GroupPrefix + x) && !(UserEmailPrefix <= GroupPrefix + x)
    ensures !(UserPrefix <= MessagePrefix + x) && !(UserEmailPrefix <= MessagePrefix + x)
    ensures !(GroupPrefix <= MessagePrefix + x) && !(GroupPrefix <= UserPrefix + x)
  {
    assert (UserPrefix + x)[4] == '#' != UserEmailPrefix[4];
    assert (GroupPrefix + x)[0] == 'G';
    assert (MessagePrefix + x)[0] == 'M';
    assert (UserPrefix + x)[0] == 'U';
  }

  /** Decoding the key of an entity gives back exactly that entity's identifiers. */
  lemma {:induction false} DecodeEncode(r: EntityRef)
    ensures Decode(Encode(r)) == Some(r)
  {
    match r
    case UserRef(h) =>
      PrefixesDisjoint(h);
      PrefixOfConcat(UserPrefix, h);
    case UserEmailRef(e) =>
      PrefixOfConcat(UserEmailPrefix, e);
    case GroupRef(g) =>
      PrefixesDisjoint(g);
      PrefixOfConcat(GroupPrefix, g);
    case MembershipRef(g, u) =>
      PrefixesDisjoint(g);
      PrefixOfConcat(GroupPrefix, g);
      PrefixOfConcat(UserPrefix, u);
      assert (GroupPrefix + g)[0] != (UserPrefix + u)[0];
    case MessageRef(m) =>
      PrefixesDisjoint(m);
      PrefixOfConcat(MessagePrefix, m);
    case TypingRef(u, g) =>
      var (pk, sk) := Encode(r);
      PrefixesDisjoint(u);
      PrefixOfConcat(UserPrefix, u);
      assert sk == GroupPrefix + (g + TypingSuffix);
      PrefixOfConcat(GroupPrefix, g + TypingSuffix);
      assert pk[0] != sk[0];
      assert sk[|sk| - |TypingSuffix|..] == TypingSuffix;
      assert sk[|GroupPrefix|..|sk| - |TypingSuffix|] == g;
  }

  /** A key that decodes is exactly the encoding of what it decodes to. */
  lemma {:induction false} EncodeDecode(k: Key)
    requires Decode(k).Some?
    ensures Encode(Decode(k).value) == k
  {
    var (pk, sk) := k;
    match Decode(k).value
    case UserRef(h) =>
      assert pk == UserPrefix + pk[|UserPrefix|..];
    case UserEmailRef(e) =>
      assert pk == UserEmailPrefix + pk[|UserEmailPrefix|..];
    case GroupRef(g) =>
      assert pk == GroupPrefix + pk[|GroupPrefix|..];
    case MembershipRef(g, u) =>
      assert pk == GroupPrefix + pk[|GroupPrefix|..];
      assert sk == UserPrefix + sk[|UserPrefix|..];
    case MessageRef(m) =>
      assert pk == MessagePrefix + pk[|MessagePrefix|..];
    case TypingRef(u, g) =>
      assert pk == UserPrefix + pk[|UserPrefix|..];
      assert sk == GroupPrefix + sk[|GroupPrefix|..|sk| - |TypingSuffix|] + TypingSuffix;
  }

  /** Two entities share a key exactly when they are the same entity: keys are injective within a family and families never overlap. */
  lemma EncodeInjective(r1: EntityRef, r2: EntityRef)
    ensures Encode(r1) == Encode(r2) <==> r1 == r2
  {
    DecodeEncode(r1);
    DecodeEncode(r2);
  }
}
