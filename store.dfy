/**
 * The single table every entity is written to, seen through the two write
 * operations the create paths use: an unconditional `put` and an all-or-nothing
 * `transactWrite` of puts that may each require their key to be absent.
 * The backend's own failures (network, throttling, conflicts) are not decided
 * by anything in the repository, so every write takes them as a `fault`
 * argument: None means the backend answered normally.
 */
module Store {
  import opened Wrappers
  import opened KeyCodec

  datatype AttrValue = S(s: string) | N(n: int) | Bool(b: bool)

  /** A stored item, and equally any plain object a resolver builds or returns. */
  type Record = map<string, AttrValue>

  /** The value of an attribute, None when the object lacks it. */
  function Attr(r: Record, attr: string): Option<AttrValue>
  {
    if attr in r then Some(r[attr]) else None
  }

  function StrAttr(r: Record, attr: string): Option<string>
  {
    if attr in r && r[attr].S? then Some(r[attr].s) else None
  }

  /** The key pair an item holds in the string attributes `pkAttr` and `skAttr`, if it has both. */
  function KeyPair(item: Record, pkAttr: string, skAttr: string): (k: Option<Key>)
    ensures k.Some? <==> StrAttr(item, pkAttr).Some? && StrAttr(item, skAttr).Some?
    ensures k.Some? ==> item[pkAttr] == S(k.value.0) && item[skAttr] == S(k.value.1)
  {
    if StrAttr(item, pkAttr).Some? && StrAttr(item, skAttr).Some? then
      Some((item[pkAttr].s, item[skAttr].s))
    else None
  }

  /** The primary key of an item. */
  function KeyOf(item: Record): Option<Key>
  {
    KeyPair(item, "PK", "SK")
  }

  /** The key of an item in the index "getAllGroupsCreatedByUser". */
  function Gsi1Of(item: Record): Option<Key>
  {
    KeyPair(item, "GSI1PK", "GSI1SK")
  }

  /** The key of an item in the index "getMessagesPerGroup". */
  function Gsi2Of(item: Record): Option<Key>
  {
    KeyPair(item, "GSI2PK", "GSI2SK")
  }

  /** The attributes of `r` whose names are in `attrs`, as an object literal listing them would copy them. */
  function Restrict(r: Record, attrs: set<string>): (p: Record)
    ensures p.Keys == r.Keys * attrs
    ensures forall a | a in p :: p[a] == r[a]
  {
    map a | a in r && a in attrs :: r[a]
  }

  /** Table name used when the GroupChat_DB setting is undefined. */
  const DefaultTableName: string := "groupChatDynamoDBTable"

  function ResolveTableName(setting: Option<string>): (tableName: string)
    ensures setting.None? ==> tableName == DefaultTableName
    ensures setting.Some? ==> tableName == setting.value
  {
    match setting
    case Some(n) => n
    case None => DefaultTableName
  }

  /** An error object of the backend client: its `code` (also its `name`) and `message`. */
  datatype StoreError = StoreError(code: string, message: string)

  /** The string `${error}` gives for such an error. */
  function Describe(e: StoreError): string
  {
    e.code + ": " + e.message
  }

  const ResourceNotFound: StoreError :=
    StoreError("ResourceNotFoundException", "Requested resource not found")
  const MissingKey: StoreError :=
    StoreError("ValidationException", "One or more parameter values were invalid: Missing the key")

  /** The error a put to `tableName` reports, when this table is called `name`. */
  function PutError(name: string, tableName: string, item: Record, fault: Option<StoreError>): (err: Option<StoreError>)
    ensures err.None? <==> fault.None? && tableName == name && KeyOf(item).Some?
    ensures fault.Some? ==> err == fault
  {
    if fault.Some? then fault
    else if tableName != name then Some(ResourceNotFound)
    else if KeyOf(item).None? then Some(MissingKey)
    else None
  }

  /** One element of a transaction: a put, conditional on `attribute_not_exists(PK)` when `keyMustBeAbsent`. */
  datatype TransactPut = TransactPut(item: Record, keyMustBeAbsent: bool)

  /** The rejection value of a failed transaction: the per-item reasons (when the backend sent them) and the error code. */
  datatype TransactFailure = TransactFailure(cancellationReasons: Option<seq<string>>, code: string)

  const TransactionCanceled: string := "TransactionCanceledException"
  const ConditionalCheckFailed: string := "ConditionalCheckFailed"
  const NoReason: string := "None"
  const ValidationError: string := "ValidationException"

  predicate Keyed(puts: seq<TransactPut>)
  {
    forall p | p in puts :: KeyOf(p.item).Some?
  }

  /** The backend refuses a transaction that touches one item twice. */
  predicate DistinctKeys(puts: seq<TransactPut>)
  {
    forall i, j | 0 <= i < j < |puts| :: KeyOf(puts[i].item) != KeyOf(puts[j].item)
  }

  predicate Violates(items: map<Key, Record>, p: TransactPut)
  {
    p.keyMustBeAbsent && KeyOf(p.item).Some? && KeyOf(p.item).value in items
  }

  /** The per-item cancellation reasons, in submission order. */
  function CancellationReasons(items: map<Key, Record>, puts: seq<TransactPut>): (reasons: seq<string>)
    ensures |reasons| == |puts|
    ensures forall i | 0 <= i < |puts| :: reasons[i] == ConditionalCheckFailed <==> Violates(items, puts[i])
  {
    seq(|puts|, i requires 0 <= i < |puts| =>
      if Violates(items, puts[i]) then ConditionalCheckFailed else NoReason)
  }

  /** The table after every put of a committed transaction, in order. */
  function ApplyPuts(items: map<Key, Record>, puts: seq<TransactPut>): map<Key, Record>
    requires Keyed(puts)
    decreases |puts|
  {
    if puts == [] then items
    else ApplyPuts(items[KeyOf(puts[0].item).value := puts[0].item], puts[1..])
  }

  /** How a transaction ends: None when it commits, otherwise the rejection value. */
  function TransactOutcome(name: string, tableName: string, items: map<Key, Record>,
                           puts: seq<TransactPut>, fault: Option<TransactFailure>): (failure: Option<TransactFailure>)
    ensures failure.None? <==>
      && fault.None? && tableName == name && Keyed(puts) && DistinctKeys(puts)
      && forall i | 0 <= i < |puts| :: !Violates(items, puts[i])
    ensures fault.None? && tableName == name && Keyed(puts) && DistinctKeys(puts) && failure.Some? ==>
      failure == Some(TransactFailure(Some(CancellationReasons(items, puts)), TransactionCanceled))
  {
    if fault.Some? then fault
    else if tableName != name then Some(TransactFailure(None, ResourceNotFound.code))
    else if !Keyed(puts) || !DistinctKeys(puts) then Some(TransactFailure(None, ValidationError))
    else if exists i | 0 <= i < |puts| :: Violates(items, puts[i]) then
      Some(TransactFailure(Some(CancellationReasons(items, puts)), TransactionCanceled))
    else None
  }

  /**
   * Every row is stored under its own PK and SK, as the backend keeps it: the
   * map from keys to rows never disagrees with the key attributes of a row.
   */
  ghost predicate KeysMatch(items: map<Key, Record>)
  {
    forall k | k in items :: KeyOf(items[k]) == Some(k)
  }

  lemma {:induction false} ApplyPutsKeysMatch(items: map<Key, Record>, puts: seq<TransactPut>)
    requires KeysMatch(items) && Keyed(puts)
    ensures KeysMatch(ApplyPuts(items, puts))
    decreases |puts|
  {
    if puts != [] {
      var next := items[KeyOf(puts[0].item).value := puts[0].item];
      assert KeysMatch(next);
      ApplyPutsKeysMatch(next, puts[1..]);
    }
  }

  /** A committed two-put transaction writes the second item after the first. */
  lemma ApplyTwoPuts(items: map<Key, Record>, first: TransactPut, second: TransactPut)
    requires KeyOf(first.item).Some? && KeyOf(second.item).Some?
    ensures Keyed([first, second])
    ensures ApplyPuts(items, [first, second]) ==
      items[KeyOf(first.item).value := first.item][KeyOf(second.item).value := second.item]
  {
    var m1 := items[KeyOf(first.item).value := first.item];
    var m2 := m1[KeyOf(second.item).value := second.item];
    assert [first, second][1..] == [second];
    assert [second][1..] == [];
    calc {
      ApplyPuts(items, [first, second]);
      ApplyPuts(m1, [second]);
      ApplyPuts(m2, []);
    }
  }

  class Table {
    const name: string
    var items: map<Key, Record>

    /**
     * The table's invariant: every row sits under its own key attributes, so the
     * map models the backend's table and not an arbitrary key-to-row map.
     */
    ghost predicate Valid()
      reads this
    {
      KeysMatch(items)
    }

    constructor (name: string)
      ensures Valid()
      ensures this.name == name && items == map[]
    {
      this.name := name;
      items := map[];
    }

    /** An unconditional put: overwrites whatever the table held under the item's key. */
    method Put(tableName: string, item: Record, fault: Option<StoreError>) returns (err: Option<StoreError>)
      requires Valid()
      modifies this
      ensures Valid()
      ensures err == PutError(name, tableName, item, fault)
      ensures err.None? ==> items == old(items)[KeyOf(item).value := item]
      ensures err.Some? ==> items == old(items)
    {
      err := PutError(name, tableName, item, fault);
      if err.None? {
        items := items[KeyOf(item).value := item];
      }
    }

    /** transactWrite: every put is applied, or (when a condition fails or the backend fails) none is. */
    method TransactWrite(tableName: string, puts: seq<TransactPut>, fault: Option<TransactFailure>)
      returns (failure: Option<TransactFailure>)
      requires Valid()
      modifies this
      ensures Valid()
      ensures failure == TransactOutcome(name, tableName, old(items), puts, fault)
      ensures failure.None? ==> Keyed(puts) && items == ApplyPuts(old(items), puts)
      ensures failure.Some? ==> items == old(items)
    {
      failure := TransactOutcome(name, tableName, items, puts, fault);
      if failure.None? {
        ApplyPutsKeysMatch(items, puts);
        items := ApplyPuts(items, puts);
      }
    }
  }
}
