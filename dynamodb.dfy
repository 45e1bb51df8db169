/**
 * The per-record reconciliation of historical/common/dynamodb.py: a DynamoDB
 * stream record of the Current table becomes at most one new revision of the
 * Durable table.
 *
 * - INSERT saves the new image (less `ttl`, decimals narrowed).
 * - MODIFY saves it only when the injected diff reports a difference from the
 *   newest durable revision at or before its event time, and warns when there
 *   is none.
 * - REMOVE saves a deletion marker, with an empty configuration and the
 *   store's own timestamp, only when the DynamoDB TTL service removed the item.
 *
 * A Python KeyError becomes `Fail(KeyError(key))`, and a decimal the remainder
 * test cannot handle `Fail(InvalidOperation)`; every failure happens before
 * any save, so a failed record changes nothing.
 */
module Dynamodb {
  import opened Wrappers
  import opened Values
  import opened Normalize
  import opened Durable

  /** The identity DynamoDB gives TTL expiries in a stream record's `userIdentity`. */
  const ExpiryServiceType := "Service"
  const ExpiryServicePrincipal := "dynamodb.amazonaws.com"

  const ConfigurationField := "configuration"

  datatype EventName = Insert | Modify | Remove | OtherEvent(name: string)

  /**
   * A stream record: `eventName`, the `dynamodb` part's `Keys`, `NewImage` and
   * `OldImage`, and the optional `userIdentity` block.
   */
  datatype StreamRecord = StreamRecord(
    eventName: EventName,
    keys: map<string, Attr>,
    newImage: Option<map<string, Attr>>,
    oldImage: Option<map<string, Attr>>,
    userIdentity: Option<map<string, string>>)

  datatype Outcome = Pass | Fail(error: Error)

  // ------------------------------------------------- what a record turns into

  /**
   * The ARN: the string value of the `arn` key attribute.  A missing `arn` is
   * a KeyError for `arn`; an attribute of another type has no `S` entry.
   */
  function ArnOf(keys: map<string, Attr>): (r: Result<string, Error>)
    ensures ArnField !in keys ==> r == Failure(KeyError(ArnField))
    ensures ArnField in keys && !keys[ArnField].S? ==> r == Failure(KeyError("S"))
    ensures r.Success? <==> ArnField in keys && keys[ArnField].S?
    ensures r.Success? ==> Attr.S(r.value) == keys[ArnField]
  {
    if ArnField !in keys then Failure(KeyError(ArnField))
    else if !keys[ArnField].S? then Failure(KeyError("S"))
    else Success(keys[ArnField].s)
  }

  /**
   * The `data` an INSERT or MODIFY builds from `NewImage`.  Narrowing a
   * decimal of magnitude 10^28 or more raises InvalidOperation.
   */
  function CandidateData(newImage: Option<map<string, Attr>>): (r: Result<Revision, Error>)
    ensures newImage.None? ==> r == Failure(KeyError("NewImage"))
    ensures newImage.Some? && TtlField !in newImage.value ==> r == Failure(KeyError(TtlField))
    ensures newImage.Some? && TtlField in newImage.value && r.Failure? ==> r.error == InvalidOperation
    ensures r.Success? <==>
              && newImage.Some? && TtlField in newImage.value
              && forall k :: k in newImage.value && k != TtlField ==>
                   Narrowable(Deserialize(newImage.value[k]))
    ensures r.Success? ==> r.value.Keys == newImage.value.Keys - {TtlField}
    ensures r.Success? ==> forall k :: k in r.value ==>
              && NarrowDecimals(Deserialize(newImage.value[k])) == Success(r.value[k])
              && NoDecimals(r.value[k])
  {
    if newImage.None? then Failure(KeyError("NewImage"))
    else
      var image :- RemoveCurrentSpecificFields(newImage.value);
      if forall k :: k in image ==> NarrowDecimals(Deserialize(image[k])).Success? then
        Success(map k | k in image :: NarrowDecimals(Deserialize(image[k])).value)
      else Failure(InvalidOperation)
  }

  /** The `data` `delete_record` builds from an old image whose `ttl` is already gone. */
  function Tombstone(image: map<string, Attr>): (r: Result<Revision, Error>)
    ensures r.Success? <==> EventTimeField in image
    ensures r.Failure? ==> r.error == KeyError(EventTimeField)
    ensures r.Success? ==> r.value.Keys == image.Keys - {EventTimeField} + {ConfigurationField}
    ensures r.Success? ==> r.value[ConfigurationField] == Dict(map[])
    ensures r.Success? ==> forall k :: k in r.value && k != ConfigurationField ==>
              r.value[k] == Deserialize(image[k])
  {
    var data := (map k | k in image :: Deserialize(image[k]))[ConfigurationField := Dict(map[])];
    if EventTimeField in data then Success(data - {EventTimeField})
    else Failure(KeyError(EventTimeField))
  }

  /** The deletion marker's `data` for a REMOVE: `OldImage`, less `ttl`, through `delete_record`. */
  function RemovalData(oldImage: Option<map<string, Attr>>): (r: Result<Revision, Error>)
    ensures oldImage.None? ==> r == Failure(KeyError("OldImage"))
    ensures oldImage.Some? && TtlField !in oldImage.value ==> r == Failure(KeyError(TtlField))
    ensures r.Success? <==>
              oldImage.Some? && TtlField in oldImage.value && EventTimeField in oldImage.value
    ensures r.Success? ==>
              r.value.Keys == oldImage.value.Keys - {TtlField, EventTimeField} + {ConfigurationField}
    ensures r.Success? ==> EventTimeField !in r.value && r.value[ConfigurationField] == Dict(map[])
    ensures r.Success? ==> forall k :: k in r.value && k != ConfigurationField ==>
              r.value[k] == Deserialize(oldImage.value[k])
  {
    if oldImage.None? then Failure(KeyError("OldImage"))
    else
      var image :- RemoveCurrentSpecificFields(oldImage.value);
      Tombstone(image)
  }

  /**
   * Whether a REMOVE came from the TTL service.  A missing or empty
   * `userIdentity` means no; a block without `type`, or a service block
   * without `principalId`, is a KeyError.
   */
  function IsTtlDeletion(userIdentity: Option<map<string, string>>): (r: Result<bool, Error>)
    ensures r == Success(true) <==>
              && userIdentity.Some?
              && "type" in userIdentity.value && userIdentity.value["type"] == ExpiryServiceType
              && "principalId" in userIdentity.value
              && userIdentity.value["principalId"] == ExpiryServicePrincipal
    ensures r.Failure? <==>
              && userIdentity.Some? && userIdentity.value != map[]
              && ("type" !in userIdentity.value
                  || (userIdentity.value["type"] == ExpiryServiceType && "principalId" !in userIdentity.value))
    ensures r.Failure? ==>
              && userIdentity.Some?
              && r.error == KeyError(if "type" !in userIdentity.value then "type" else "principalId")
  {
    if userIdentity.None? || userIdentity.value == map[] then Success(false)
    else
      var identity := userIdentity.value;
      if "type" !in identity then Failure(KeyError("type"))
      else if identity["type"] != ExpiryServiceType then Success(false)
      else if "principalId" !in identity then Failure(KeyError("principalId"))
      else Success(identity["principalId"] == ExpiryServicePrincipal)
  }

  // ------------------------------------------------------------------ loops

  /**
   * The loop that decodes and narrows every attribute of the new image; the
   * first attribute that cannot be narrowed aborts it.
   */
  method NarrowImage(image: map<string, Attr>) returns (r: Result<Revision, Error>)
    ensures r.Success? <==> forall k :: k in image ==> Narrowable(Deserialize(image[k]))
    ensures r.Failure? ==> r.error == InvalidOperation
    ensures r.Success? ==> r.value.Keys == image.Keys
    ensures r.Success? ==> forall k :: k in image ==>
              NarrowDecimals(Deserialize(image[k])) == Success(r.value[k])
  {
    var data := map[];
    var todo := image.Keys;
    while todo != {}
      invariant todo <= image.Keys
      invariant data.Keys == image.Keys - todo
      invariant forall k :: k in data ==> NarrowDecimals(Deserialize(image[k])) == Success(data[k])
      decreases |todo|
    {
      var k :| k in todo;
      var v :- ReplaceDecimals(Deserialize(image[k]));
      data := data[k := v];
      todo := todo - {k};
    }
    r := Success(data);
  }

  /** The loop that decodes every attribute of the old image, without narrowing. */
  method DeserializeImage(image: map<string, Attr>) returns (data: Revision)
    ensures data.Keys == image.Keys
    ensures forall k :: k in data ==> data[k] == Deserialize(image[k])
  {
    data := map[];
    var todo := image.Keys;
    while todo != {}
      invariant todo <= image.Keys
      invariant data.Keys == image.Keys - todo
      invariant forall k :: k in data ==> data[k] == Deserialize(image[k])
      decreases |todo|
    {
      var k :| k in todo;
      data := data[k := Deserialize(image[k])];
      todo := todo - {k};
    }
  }

  // ------------------------------------------------------------ operations

  /**
   * `modify_record`: consult only the newest revision of `arn` at or before
   * `eventTime`; save `current` when `diff` says it differs from it, warn
   * when there is none.
   */
  method ModifyRecord(table: DurableTable, logger: Logger, current: Revision, arn: string,
                      eventTime: Value, diff: (Revision, Revision) -> bool)
    modifies table, logger
    ensures var latest := LatestRevision(old(table.items), arn, eventTime);
            && table.items == (if latest.Some? && diff(latest.value, current)
                               then old(table.items) + [current] else old(table.items))
            && logger.warnings == (if latest.None? then old(logger.warnings) + [NoPriorRevision(arn)]
                                   else old(logger.warnings))
  {
    var latest := table.Query(arn, eventTime);
    if latest.Some? {
      if diff(latest.value, current) {
        table.Save(current);
      }
    } else {
      logger.Warn(NoPriorRevision(arn));
    }
  }

  /**
   * `delete_record`: save the old image as a deletion marker, with an empty
   * configuration and without the old `eventTime`, so that the durable model
   * stamps it with the store's clock reading `now`.
   */
  method DeleteRecord(oldImage: map<string, Attr>, table: DurableTable, now: string)
    returns (r: Outcome)
    modifies table
    ensures Tombstone(oldImage).Failure? ==>
              r == Fail(Tombstone(oldImage).error) && table.items == old(table.items)
    ensures Tombstone(oldImage).Success? ==>
              && r == Pass
              && table.items == old(table.items) + [DurableModel(Tombstone(oldImage).value, now)]
              && table.items[|old(table.items)|][EventTimeField] == Str(now)
  {
    var data := DeserializeImage(oldImage);
    data := data[ConfigurationField := Dict(map[])];
    if EventTimeField !in data {
      return Fail(KeyError(EventTimeField));
    }
    data := data - {EventTimeField};
    assert data == Tombstone(oldImage).value;
    table.Save(DurableModel(data, now));
    r := Pass;
  }

  /**
   * `process_dynamodb_record`.  Every record needs a string `arn` key; then
   * INSERT always saves, MODIFY saves at most once and only on a difference,
   * REMOVE saves a marker only for a TTL expiry, and any other event name
   * does nothing.  `now` is the clock reading the durable model uses as its
   * default event time.
   */
  method ProcessRecord(record: StreamRecord, table: DurableTable, logger: Logger,
                       diff: (Revision, Revision) -> bool, now: string)
    returns (r: Outcome)
    modifies table, logger
    // append-only: at most one revision, and nothing saved before is touched
    ensures |old(table.items)| <= |table.items| <= |old(table.items)| + 1
    ensures table.items[..|old(table.items)|] == old(table.items)
    // a record that fails changes nothing
    ensures r.Fail? ==> table.items == old(table.items) && logger.warnings == old(logger.warnings)
    ensures ArnOf(record.keys).Failure? ==> r == Fail(ArnOf(record.keys).error)
    ensures ArnOf(record.keys).Success? && record.eventName.Insert? ==>
              var data := CandidateData(record.newImage);
              && (data.Failure? ==> r == Fail(data.error))
              && (data.Success? ==>
                    && r == Pass
                    && table.items == old(table.items) + [DurableModel(data.value, now)]
                    && logger.warnings == old(logger.warnings))
    ensures ArnOf(record.keys).Success? && record.eventName.Modify? ==>
              var data := CandidateData(record.newImage);
              && (data.Failure? ==> r == Fail(data.error))
              && (data.Success? && EventTimeField !in data.value ==> r == Fail(KeyError(EventTimeField)))
              && (data.Success? && EventTimeField in data.value ==>
                    var latest := LatestRevision(old(table.items), ArnOf(record.keys).value,
                                                 data.value[EventTimeField]);
                    && r == Pass
                    && table.items == (if latest.Some? && diff(latest.value, data.value)
                                       then old(table.items) + [data.value] else old(table.items))
                    && logger.warnings == (if latest.None?
                                           then old(logger.warnings) + [NoPriorRevision(ArnOf(record.keys).value)]
                                           else old(logger.warnings)))
    ensures ArnOf(record.keys).Success? && record.eventName.Remove? ==>
              var ttl := IsTtlDeletion(record.userIdentity);
              var data := RemovalData(record.oldImage);
              && (ttl.Failure? ==> r == Fail(ttl.error))
              && (ttl == Success(false) ==> r == Pass && table.items == old(table.items))
              && (ttl == Success(true) && data.Failure? ==> r == Fail(data.error))
              && (ttl == Success(true) && data.Success? ==>
                    && r == Pass
                    && table.items == old(table.items) + [DurableModel(data.value, now)])
              && logger.warnings == old(logger.warnings)
    ensures ArnOf(record.keys).Success? && record.eventName.OtherEvent? ==>
              r == Pass && table.items == old(table.items) && logger.warnings == old(logger.warnings)
  {
    var arn := ArnOf(record.keys);
    if arn.Failure? {
      return Fail(arn.error);
    }
    r := Pass;
    if record.eventName.Insert? || record.eventName.Modify? {
      if record.newImage.None? {
        return Fail(KeyError("NewImage"));
      }
      var image := RemoveCurrentSpecificFields(record.newImage.value);
      if image.Failure? {
        return Fail(image.error);
      }
      var narrowed := NarrowImage(image.value);
      if narrowed.Failure? {
        return Fail(narrowed.error);
      }
      var data := narrowed.value;
      assert data == CandidateData(record.newImage).value;
      var current := DurableModel(data, now);
      if record.eventName.Insert? {
        table.Save(current);
      } else {
        if EventTimeField !in data {
          return Fail(KeyError(EventTimeField));
        }
        ModifyRecord(table, logger, current, arn.value, data[EventTimeField], diff);
      }
    }
    if record.eventName.Remove? {
      var ttl := IsTtlDeletion(record.userIdentity);
      if ttl.Failure? {
        return Fail(ttl.error);
      }
      if ttl.value {
        if record.oldImage.None? {
          return Fail(KeyError("OldImage"));
        }
        var image := RemoveCurrentSpecificFields(record.oldImage.value);
        if image.Failure? {
          return Fail(image.error);
        }
        r := DeleteRecord(image.value, table, now);
      }
    }
  }
}
