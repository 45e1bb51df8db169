# Historical: DynamoDB stream reconciliation, modelled in Dafny

Historical keeps an append-only history of cloud resource configurations.
A "Current" DynamoDB table holds the latest observed state of each resource.
Its stream feeds a processor that decides, record by record, whether the
"Durable" table gets a new revision. This project models that processor,
`historical/common/dynamodb.py`, and proves its decisions:

- **INSERT** always saves one revision. It is the new image without its
  `ttl` field, every attribute decoded and its decimals narrowed.
- **MODIFY** builds the same candidate and looks up the newest durable
  revision of the ARN whose `eventTime` is at or before the candidate's. It
  saves the candidate only when the injected diff reports a difference. With
  no prior revision it saves nothing and logs exactly one warning.
- **REMOVE** writes a deletion marker only when the record's `userIdentity`
  says the DynamoDB TTL service (type `Service`, principal
  `dynamodb.amazonaws.com`) removed the item. The marker is the old image
  without `ttl` and `eventTime`, with an empty `configuration`. The durable
  model then stamps it with its own clock. Every other REMOVE saves nothing.
- A missing key (a Python `KeyError`) aborts the record before anything is
  saved. So does a number in the new image that the remainder test of
  `replace_decimals` cannot handle (a `decimal.InvalidOperation`). So a
  record either fails and changes nothing, or appends at most one revision.

Files and modules:

- `wrappers.dfy` (`Wrappers`): `Option` and `Result`.
- `values.dfy` (`Values`):
  - `Attr` is the tagged wire value of a stream record (`S`, `N`, `B`,
    `BOOL`, `NULL`, `M`, `L`, `SS`, `NS`, `BS`).
  - `Value` is the decoded tree.
  - `Deserialize` is the decoder that stands in for boto3's
    `TypeDeserializer`. Numbers decode to exact decimals.
- `normalize.dfy` (`Normalize`): the clean-up helpers.
  - `ReplaceDecimals` and `ReplaceNones` keep the source's in-place loops:
    lists by index, dicts key by key.
  - They are proved equal to the functions `NarrowDecimals` and
    `NullsToEmpty`. The shape, idempotence and leaf properties are proved
    about those functions.
- `durable.dfy` (`Durable`):
  - the Durable table as a class over an append-only `seq` of revisions,
    with `Save` and `Query`;
  - `LatestIndex`, the answer to the descending, limit-1 range query,
    proved maximal;
  - the durable model's default event time (`DurableModel`);
  - a `Logger` whose warnings are a ghost list.
- `dynamodb.dfy` (`Dynamodb`): `ModifyRecord`, `DeleteRecord` and
  `ProcessRecord`, which change the table and the logger. They are specified
  by the pure functions `CandidateData`, `Tombstone`, `RemovalData`,
  `IsTtlDeletion` and `LatestRevision`.
- `scenario.dfy` (`Scenario`): a client that uses only the contracts above.
  It inserts a resource, modifies only its `ttl` (no new revision), then
  changes its owner (a second revision). It also narrows decimal 5 to int 5
  and 5.5 to float 5.5, fails on 10^28, and turns a decoded `{"a": NULL}`
  into `{"a": {}}`. An INSERT whose image holds 10^28 fails and saves nothing.

Modelling choices:

- `eventTime` is a string attribute, ordered by code point as DynamoDB
  orders string range keys. This fits ISO-8601 timestamps. The durable model
  class that declares it is not part of this model. A query whose bound is
  not a string matches nothing.
- A save under an existing (`arn`, `eventTime`) key replaces the item. The
  log models this by keeping both entries: among entries with equal event
  times, the query returns the later one.
- The clock the durable model uses for its default event time is the
  parameter `now`. The diff function is the parameter `diff`.
- `replace_decimals` tests `d % 1 == 0` in Python's default decimal context,
  which has 28 digits of precision (nothing in the code changes it; boto3's
  38-digit context is used only while decoding). For a magnitude of 10^28 or more the
  integer quotient does not fit, so the test raises `InvalidOperation`. DynamoDB
  itself accepts numbers of up to 38 digits. The model has the bound as
  `RemainderBound`, and `NarrowDecimal` fails on every decimal at or beyond it.
- `replace_decimals` only descends into lists and dicts. Number sets (`NS`)
  therefore keep their `Decimal` elements, and the model keeps that
  behaviour (`DecimalSet` is left alone).

Behaviour of the code worth knowing:

- The `ttl` field is stripped on MODIFY as well (the new-image path is
  shared with INSERT). A missing `ttl` is a KeyError on every path that reads
  an image: INSERT, MODIFY and a TTL-service REMOVE.
- The deletion marker's attributes are decoded but not narrowed:
  `delete_record` does not call `replace_decimals`.
- Nulls are not replaced anywhere on the record path: `replace_nones` is
  defined but not called by `process_dynamodb_record`.
- The TTL identity is fixed text in the code, not configuration. The model
  has it as the constants `ExpiryServiceType` and `ExpiryServicePrincipal`.
- A record with no `userIdentity`, or an empty one, is ignored. One whose
  block lacks `type` is a KeyError. So is a `Service` block that lacks
  `principalId`.

## Model

| member | source | states |
|---|---|---|
| `Values.Deserialize` | historical/common/dynamodb.py:74 | every number comes out as an exact decimal; lists keep their length and maps their key set; NULL becomes null, N a decimal, S a string |
| `Normalize.RemoveCurrentSpecificFields` | historical/common/dynamodb.py:12-16 | fails with KeyError("ttl") exactly when `ttl` is absent; otherwise the keys are the input's minus `ttl` and every remaining value is unchanged |
| `Normalize.NarrowDecimal` | historical/common/dynamodb.py:29-33 | fails with InvalidOperation exactly when the magnitude of the decimal is 10^28 or more; otherwise a decimal with no fractional part becomes the int of the same value, and any other decimal becomes a float |
| `Normalize.NarrowDecimals` | historical/common/dynamodb.py:19-35 | fails, with InvalidOperation, exactly when some decimal outside number sets is 10^28 or more in magnitude; otherwise the result holds no decimal outside number sets, lists keep their length and dicts their key set, a decimal is narrowed, and every other leaf is returned unchanged |
| `Normalize.NarrowDecimalsFixesNoDecimals` | historical/common/dynamodb.py:19-35 | a value with no decimal outside number sets cannot fail and is left exactly as it is |
| `Normalize.NarrowDecimalsIdempotent` | historical/common/dynamodb.py:19-35 | narrowing a successful result again returns that same result |
| `Normalize.ReplaceDecimals` | historical/common/dynamodb.py:19-35 | the in-place rewrite returns exactly `NarrowDecimals` of its input, the error included |
| `Normalize.ReplaceDecimalsInList` | historical/common/dynamodb.py:21-24 | the index loop fails with InvalidOperation exactly when some element cannot be narrowed; otherwise it keeps the length and replaces every element by its narrowing |
| `Normalize.ReplaceDecimalsInDict` | historical/common/dynamodb.py:25-28 | the key loop fails with InvalidOperation exactly when some value cannot be narrowed; otherwise it keeps the key set and replaces every value by its narrowing |
| `Normalize.NullsToEmpty` | historical/common/dynamodb.py:38-51 | the result holds no null; a null becomes the empty dict; lists keep their length and dicts their key set; other leaves are unchanged |
| `Normalize.NullsToEmptyFixesNoNulls` | historical/common/dynamodb.py:38-51 | a value with no null is left exactly as it is |
| `Normalize.NullsToEmptyIdempotent` | historical/common/dynamodb.py:38-51 | replacing nulls twice equals doing it once |
| `Normalize.ReplaceNones` | historical/common/dynamodb.py:38-51 | the in-place rewrite returns exactly `NullsToEmpty` of its input |
| `Normalize.ReplaceNonesInList` | historical/common/dynamodb.py:40-43 | the index loop keeps the length and replaces nulls in every element |
| `Normalize.ReplaceNonesInDict` | historical/common/dynamodb.py:44-47 | the key loop keeps the key set and replaces nulls in every value |
| `Durable.DurableModel` | historical/common/dynamodb.py:78-80 | building a model item keeps every given attribute; an absent `eventTime` is filled with the store's own clock reading |
| `Durable.LatestIndex` | historical/common/dynamodb.py:58 | the answer is an item of the ARN with eventTime at or before the bound; no such item is later; a later-saved item with the same time wins; none exactly when nothing matches |
| `Durable.LatestIsUnique` | historical/common/dynamodb.py:58-60 | the query has one answer: two positions that both satisfy the answer's definition coincide |
| `Durable.LatestRevision` | historical/common/dynamodb.py:58-60 | none exactly when no item of the ARN is at or before the bound; otherwise a logged item of the ARN at or before the bound whose eventTime no other such item exceeds |
| `Durable.DurableTable.Save` | historical/common/dynamodb.py:64 | appends exactly one revision and changes nothing else |
| `Durable.DurableTable.Query` | historical/common/dynamodb.py:58 | returns the newest revision of the ARN at or before the bound, as `LatestRevision` defines it |
| `Durable.Logger.Warn` | historical/common/dynamodb.py:67 | appends exactly one warning |
| `Dynamodb.ArnOf` | historical/common/dynamodb.py:88 | KeyError("arn") when the key is missing and KeyError("S") when it is not a string attribute; otherwise returns that string |
| `Dynamodb.CandidateData` | historical/common/dynamodb.py:90-96 | KeyError for a missing NewImage or `ttl`; InvalidOperation exactly when some decoded attribute holds, outside number sets, a decimal of magnitude 10^28 or more; otherwise the keys are the image's minus `ttl`, each value decoded and narrowed, so no decimal is left outside number sets |
| `Dynamodb.NarrowImage` | historical/common/dynamodb.py:92-96 | the loop fails with InvalidOperation exactly when some attribute cannot be narrowed; otherwise it yields a map with the image's keys, each value decoded then narrowed |
| `Dynamodb.DeserializeImage` | historical/common/dynamodb.py:72-74 | the loop yields a map with the image's keys, each value decoded and not narrowed |
| `Dynamodb.Tombstone` | historical/common/dynamodb.py:70-79 | fails exactly when `eventTime` is absent; otherwise the keys are the image's minus `eventTime` plus `configuration`, `configuration` is the empty dict, and every other value is the decoded attribute |
| `Dynamodb.RemovalData` | historical/common/dynamodb.py:111-112 | KeyError for a missing OldImage or `ttl`; succeeds exactly when the old image has both `ttl` and `eventTime`; the marker then has neither, has an empty `configuration`, and every other value is the decoded old-image attribute |
| `Dynamodb.IsTtlDeletion` | historical/common/dynamodb.py:106-110 | true exactly for type `Service` with principal `dynamodb.amazonaws.com`; fails exactly for a non-empty block without `type` (KeyError("type")), or a `Service` block without `principalId` (KeyError("principalId")); false otherwise |
| `Dynamodb.ModifyRecord` | historical/common/dynamodb.py:54-67 | saves the candidate exactly when a latest revision exists and the diff holds, and otherwise leaves the table unchanged; logs exactly one warning exactly when there is no latest revision |
| `Dynamodb.DeleteRecord` | historical/common/dynamodb.py:70-81 | appends exactly the tombstone, whose `eventTime` is the store's clock reading; on a missing `eventTime` it fails and saves nothing |
| `Dynamodb.ProcessRecord` | historical/common/dynamodb.py:84-112 | at most one append and nothing else touched; a failure (KeyError or InvalidOperation) changes nothing; a bad arn fails every record; INSERT always appends the candidate; MODIFY behaves as `ModifyRecord` with the candidate's eventTime; REMOVE appends the marker exactly for a TTL deletion; any other event does nothing |

## Left out

- `historical/security_group/poller.py`: Lambda handler glue. It covers SQS queue lookup and event production, the describe-security-groups calls, account and region enumeration, and error logging. None of it decides anything about revisions.
- Values.Deserialize: a small decoder over a closed set of type tags, not boto3's `TypeDeserializer`. Number strings arrive already parsed as exact reals. An unsupported tag, and the error it would raise, cannot occur. boto3's 38-digit decoding context, which rejects numbers it cannot represent exactly, is not modelled.
- NarrowDecimal: the float branch keeps the exact decimal. Binary floating-point rounding, and the precision loss for large values, are not modelled. The InvalidOperation for magnitudes of 10^28 or more is modelled; the other signals of the default context (Inexact, Rounded) are not trapped there and change nothing the test decides.
- PynamoDB model construction and serialization are outside this model: rejecting unknown attributes, a missing hash key, how attribute types are serialized. Only the default `eventTime` is modelled (`DurableModel`). The durable model classes are not part of this model.
- Store failures: `Save` always succeeds. A write error, and its propagation to the transport for redelivery, are not modelled.
- In-place mutation and aliasing. The source deletes `ttl` from the record's own image dicts and rewrites lists and dicts in place. The model computes new values, so a caller that held a reference to the mutated objects would not see the change.
- Logging text and levels. The info and debug messages are dropped. The MODIFY warning is recorded as `NoPriorRevision(arn)` in a ghost list.
- Record shape. The `dynamodb` part, its `Keys` and `eventName` are assumed present, so the KeyError a record without them raises at line 88 or 90 cannot be expressed. `userIdentity` is either absent or a map of strings, so Python truthiness of other shapes is not covered.
- The diff policy. It is injected, and its own properties (reflexivity, ignoring ephemeral paths) belong to the callers, not to this code.
- Concurrency, batching and redelivery. These include the race between the query and the save for concurrent MODIFYs of one ARN. The model processes one record at a time.
