# Group chat single-table data model

This project models, in Dafny, the data core of a serverless group-chat backend.
Every entity (users, email reservations, groups, memberships, messages, typing
indicators) is written to one key-value table keyed by `(PK, SK)`, with two
secondary key pairs: `GSI1PK/GSI1SK` (groups created by a user) and
`GSI2PK/GSI2SK` (messages per group). The model covers:

- **the key codec** (`KeyCodec`): every key family as a prefix concatenation,
  a decoder, and the round trip that makes keys injective and the families
  disjoint;
- **the entity encoders** (`GroupEntity`, `UserEntity`): construction from a
  parameters object, `key()`, `gsi1Key()`, `toItem()` and `graphQlReturn()`;
- **the table** (`Store.Table`): a class holding `items: map<Key, Record>`, with
  an unconditional `Put` and an all-or-nothing `TransactWrite` whose puts may
  each require their key to be absent;
- **the create paths**, one module per resolver: registration
  (`CreateUserAccounts`), `SendMessage`, `TypingIndicator`, `AddUserToGroup`,
  `CreateGroupHandler` and `CreateGroup`;
- **the registration invariant** (`Registry.Consistent`): user rows and email
  reservations come in pairs and no two user rows record one email. Registration
  keeps it because its transaction is all-or-nothing. Every other create path
  keeps it because its key belongs to another family.

Items and the objects resolvers return are `map<string, AttrValue>`. JavaScript
object spread `{ id, ...input, createdOn }` is Dafny's right-biased map union.
The generated id, the timestamp, the table-name setting and the backend's own
failures are parameters of each resolver. A backend failure is the `fault`
argument: `None` means the backend answered normally.

The user entity class keys a user by **email** under `USER#`, while the live
registration path keys the user row by **username** under the same prefix. Both
are modelled as written. `UserEntity.KeyDivergesFromRegistration` shows the two
keys agree only when username and email coincide.

Three behaviours of the code worth stating:
- group, membership, message and typing-indicator creates are unconditional
  puts that overwrite, not puts conditional on the key being absent;
- a successful registration returns `{id, username, email, profilePicKey}`
  without `createdOn`;
- the group create paths store `createdOn` as a number (`CreateGroupHandler`) or
  as its decimal string (`CreateGroup`).

## Model

| member | source | states |
|---|---|---|
| KeyCodec.DecodeEncode | lib/group_chat-stack.ts:128-139 | decoding the key of any entity gives back exactly its family and natural identifiers |
| KeyCodec.EncodeDecode | lib/group_chat-stack.ts:128-139 | a key that decodes is exactly the key of what it decodes to |
| KeyCodec.EncodeInjective | lib/group_chat-stack.ts:128-139 | two entities share a primary key iff they are the same entity: keys are injective within a family and families never overlap |
| Store.ResolveTableName | lib/lambda_fns/user/CreateUserAccountsLambda.ts:18-25 | an undefined table-name setting falls back to "groupChatDynamoDBTable", otherwise the setting is used |
| Store.PutError | lib/lambda_fns/message/SendMessageHandler.ts:42-43 | a put succeeds iff the backend answers normally, the table name is this table's and the item has string PK and SK |
| Store.CancellationReasons | lib/utils/index.ts:13-17 | one reason per put, in submission order; a reason is ConditionalCheckFailed iff that put required an absent key that is present |
| Store.TransactOutcome | lib/utils/index.ts:23-36 | a transaction commits iff there is no fault, the table name matches, the puts have distinct keys and no condition fails; a condition failure is reported as TransactionCanceledException with the per-item reasons |
| Store.Table.Put | lib/lambda_fns/message/SendMessageHandler.ts:43 | on success the item replaces whatever was stored under its key, nothing else changes; on failure the table is unchanged |
| Store.Table.TransactWrite | lib/lambda_fns/user/CreateUserAccountsLambda.ts:76-77 | all puts are applied in order, or none is; the outcome is the one TransactOutcome gives |
| Decimal.NatToString | lib/lambda_fns/group/AddUserToGroupHandler.ts:13 | the string form of a timestamp is a non-empty run of decimal digits without leading zeros |
| Decimal.ParseNatToString | lib/lambda_fns/group/CreateGroup.ts:23 | parsing the string form of a timestamp gives the timestamp back |
| Decimal.NatToStringInjective | lib/lambda_fns/group/AddUserToGroupHandler.ts:13 | different timestamps have different string forms |
| GroupEntity.Key | lib/lambda_fns/group/GroupEntity.ts:37-45 | PK equals SK, and the key decodes as the group family with the entity's id |
| GroupEntity.Gsi1Key | lib/lambda_fns/group/GroupEntity.ts:46-54 | GSI1PK is the partition of the creator's user key; GSI1SK equals the group's SK |
| GroupEntity.GraphQlReturn | lib/lambda_fns/group/GroupEntity.ts:72-81 | the returned object has exactly the six business properties, so no PK, SK, GSI1 or ENTITY attribute |
| GroupEntity.ToItem | lib/lambda_fns/group/GroupEntity.ts:56-70 | the item holds the primary key and the GSI1 key, ENTITY = GROUP, and business fields equal to graphQlReturn(); no other attribute |
| GroupEntity.GraphQlReturnOfNew | lib/lambda_fns/group/GroupEntity.ts:17-35 | round trip: for an entity built from parameters p, graphQlReturn() equals p's six parameter properties field for field |
| GroupEntity.FromItemToItem | lib/lambda_fns/group/GroupEntity.ts:56-70 | the stored item reads back, from its key and ENTITY tag, as the entity that produced it |
| GroupEntity.KeyInjective | lib/lambda_fns/group/GroupEntity.ts:41-44 | two groups share a primary key iff they share an id |
| GroupEntity.WithServerFields | lib/lambda_fns/group/CreateGroupHandler.ts:25-29 | in `{ id, ...input, createdOn }` the server timestamp always wins, the generated id stands unless the input has its own id, and every other input property passes through |
| GroupEntity.FromCreateInput | lib/lambda_fns/group/CreateGroup.ts:30-34 | the entity built by a create path has the server timestamp, the generated id when the input has none, and the input's four group properties |
| UserEntity.Key | lib/lambda_fns/user/userEntity.ts:29-37 | PK equals SK, and the key decodes as USER# with the entity's email |
| UserEntity.GraphQlReturn | lib/lambda_fns/user/userEntity.ts:52-61 | the returned object has id, username, email, createdOn and ENTITY = USER, and no PK or SK |
| UserEntity.ToItem | lib/lambda_fns/user/userEntity.ts:39-50 | the item holds the key plus exactly the attributes of graphQlReturn(), so the two agree on id, username, email, createdOn and ENTITY |
| UserEntity.GraphQlReturnOfNew | lib/lambda_fns/user/userEntity.ts:14-27 | round trip: graphQlReturn() of an entity built from p is p's four parameter properties plus ENTITY = USER |
| UserEntity.KeyDependsOnEmailOnly | lib/lambda_fns/user/userEntity.ts:34-35 | two users share a key iff they share an email, whatever their usernames |
| UserEntity.KeyDivergesFromRegistration | lib/lambda_fns/user/userEntity.ts:33-36 | the entity's key equals the registration key of its username iff email and username coincide |
| Registry.ForeignPutPreserves | lib/lambda_fns/message/TypingIndicatorLambdaHandler.ts:31-32 | a put under a key of any family other than user rows and email reservations keeps the registration invariant |
| CreateUserAccounts.UserRowItem | lib/lambda_fns/user/CreateUserAccountsLambda.ts:33-49 | the user row is keyed USER#username on both PK and SK, with ENTITY = USER and the input's username, email and profilePicKey; its attributes are exactly id, ENTITY, PK, SK, username, email, profilePicKey and createdOn |
| CreateUserAccounts.EmailReservationItem | lib/lambda_fns/user/CreateUserAccountsLambda.ts:56-68 | the reservation is keyed USEREMAIL#email on both PK and SK, with ENTITY = USER and the input email; its attributes are exactly id, ENTITY, PK, SK, email and createdOn |
| CreateUserAccounts.Transaction | lib/lambda_fns/user/CreateUserAccountsLambda.ts:29-74 | two puts, both conditional on attribute_not_exists(PK), on distinct keys, with the same generated id and createdOn |
| CreateUserAccounts.AccountResult | lib/lambda_fns/user/CreateUserAccountsLambda.ts:78-83 | the result is {id, username, email, profilePicKey}, without createdOn, equal to the user row's values for those fields, so username, email and profilePicKey are the input's |
| CreateUserAccounts.ErrorMessage | lib/lambda_fns/user/CreateUserAccountsLambda.ts:90-103 | "username already exists" iff the code is TransactionCanceledException and reason 0 is ConditionalCheckFailed; "email already exists" iff reason 0 is not and reason 1 is; otherwise "Could not create user account" |
| CreateUserAccounts.ConflictClassification | lib/lambda_fns/user/CreateUserAccountsLambda.ts:94-101 | against the table itself the transaction commits iff neither key is taken; otherwise the message names the username when its key is taken, even if the email's is too, and else the email |
| CreateUserAccounts.RegistrationPreserves | lib/lambda_fns/user/CreateUserAccountsLambda.ts:29-77 | a committed registration keeps every reservation backed by a user row with that email, every user row's email reserved, and emails unique among user rows |
| CreateUserAccounts.CreateUserAccount | lib/lambda_fns/user/CreateUserAccountsLambda.ts:11-105 | returns iff the table resolves, the backend answers and neither key is present; then both items are present and the result is AccountResult; otherwise the table is unchanged and the classified message is thrown |
| CreateUserAccounts.SharedEmailScenario | lib/lambda_fns/user/CreateUserAccountsLambda.ts:97-101 | registering bob then carol with the same email: bob succeeds, carol is told the email exists |
| CreateUserAccounts.SameUsernameScenario | lib/lambda_fns/user/CreateUserAccountsLambda.ts:94-96 | registering alice twice: the second is told the username exists and the table holds exactly the USER#alice row and the USEREMAIL#a@x.com reservation |
| SendMessage.MessageResult | lib/lambda_fns/message/SendMessageHandler.ts:44-50 | the returned object has exactly id, userId, groupId, messageText and createdOn, with the generated id and timestamp and the input's userId, groupId and messageText |
| SendMessage.MessageItem | lib/lambda_fns/message/SendMessageHandler.ts:26-40 | the item is keyed MESSAGE#id; its GSI2PK is the PK of the group's own record and its GSI2SK is its SK; ENTITY = MESSAGE; its business fields equal the returned object; no other attribute |
| SendMessage.PutMessagePartitions | lib/lambda_fns/message/SendMessageHandler.ts:33-34 | storing a message adds its key to its own group's partition of the messages-per-group index and to no other group's |
| SendMessage.Handler | lib/lambda_fns/message/SendMessageHandler.ts:11-55 | returns the message iff the table resolves and the backend answers; then only the message key changes; a failed put throws Error(`${error}`) and leaves the table unchanged |
| TypingIndicator.TypingItem | lib/lambda_fns/message/TypingIndicatorLambdaHandler.ts:26-38 | the item is keyed (USER#userId, GROUP#groupId#TYPING), ENTITY = TYPING, and stores the generated id, userId, groupId, typing and createdOn; no other attribute |
| TypingIndicator.TypingKeyIdentifiesPair | lib/lambda_fns/message/TypingIndicatorLambdaHandler.ts:31-32 | two calls write the same key iff they are for the same (user, group) pair |
| TypingIndicator.TypingKeyNeverUserKey | lib/lambda_fns/message/TypingIndicatorLambdaHandler.ts:32 | a typing key never equals a user key, whether keyed by username or by email |
| TypingIndicator.Handler | lib/lambda_fns/message/TypingIndicatorLambdaHandler.ts:11-47 | returns the input flag iff the table resolves and the backend answers; then only the pair's key changes; a failed put throws |
| TypingIndicator.TypingTwice | lib/lambda_fns/message/TypingIndicatorLambdaHandler.ts:40-42 | two calls for one pair leave exactly one item for it, holding the second call's values |
| AddUserToGroup.MembershipItem | lib/lambda_fns/group/AddUserToGroupHandler.ts:22-32 | the row is keyed (GROUP#groupId, USER#userId), has no ENTITY, stores the generated id, userId and groupId, and createdOn as a decimal string that parses back to the timestamp; no other attribute |
| AddUserToGroup.MembershipKeyIdentifiesPair | lib/lambda_fns/group/AddUserToGroupHandler.ts:26-27 | two calls write the same row iff they name the same (group, user) pair |
| AddUserToGroup.MembershipKeyNotGroupKey | lib/lambda_fns/group/AddUserToGroupHandler.ts:27 | a membership row never lands on any group's own record |
| AddUserToGroup.Handler | lib/lambda_fns/group/AddUserToGroupHandler.ts:7-41 | answers true iff the table resolves and the backend answers, then only the pair's key changes; false leaves the table unchanged; it never throws |
| AddUserToGroup.AddTwice | lib/lambda_fns/group/AddUserToGroupHandler.ts:34-36 | adding one pair twice leaves exactly one membership row, the later one, and no other row changes |
| CreateGroupHandler.Handler | lib/lambda_fns/group/CreateGroupHandler.ts:12-44 | returns graphQlReturn() iff the table resolves and the backend answers; then the table holds toItem() under (GROUP#id, GROUP#id) and nothing else changes; otherwise it rethrows the backend's error |
| CreateGroup.CreatedOnString | lib/lambda_fns/group/CreateGroup.ts:23 | createdOn is a decimal string that parses back to the timestamp |
| CreateGroup.CreateGroup | lib/lambda_fns/group/CreateGroup.ts:17-49 | as the handler, with a string createdOn: graphQlReturn() on success with toItem() stored, the original error rethrown on failure |

## Left out

- Query access patterns: groups by creator, messages per group, a message's author and all users are served by VTL templates that are not part of this model. Only the index key shapes written by the create paths are modelled, plus a ghost view of one partition of the messages-per-group index (`SendMessage.MessagesInGroup`).
- Identifier generation (ksuid) and `Date.now()`: ids and timestamps are parameters. Their uniqueness and monotonicity are not modelled.
- `process.env` lookup and logging: the table-name setting is an `Option<string>` parameter, and logging is dropped.
- The backend's network, its real transaction protocol and concurrent requests: atomicity is the abstract `Store.Table.TransactWrite`, and transport or throttling failures are the `fault` parameter. Races between concurrent registrations are modelled only as two registrations in sequence.
- Store.Table.Put, Store.Table.TransactWrite: a fault always means nothing was written. A write the backend applied but reported as failed (a time-out or a dropped connection after the write) is not modelled, so the handlers' "table unchanged on failure" clauses hold only for failures the backend reports before writing.
- `executeTransactWrite`'s callback and event plumbing, including the JSON parsing of the response body. Only its rejection value `{cancellationReasons, err}` is kept, as `Store.TransactFailure`. `JSON.parse(JSON.stringify(error))` is treated as the identity on it.
- CreateUserAccounts.CreateUserAccount: requires a TransactionCanceledException fault to carry the reasons the code reads unguarded: reason 0 always, and reason 1 as well when reason 0 is not ConditionalCheckFailed. With fewer, the code would throw a TypeError from inside its catch block, and that path is not modelled.
- Store.Describe: `${error}` is modelled as `code + ": " + message`, the form an SDK error prints as; the SDK's other error properties are not modelled.
- GroupEntity.FromCreateInput: requires the input object to carry userId, name, groupProfilePic and description as strings, and any `id` it carries to be a string. The GraphQL schema that validates the input is not part of this model, so a missing property (undefined in JavaScript) is not modelled.
- The resolver routing in lib/lambda_fns/group/app.ts and the CDK stacks: wiring with no behaviour to verify.
