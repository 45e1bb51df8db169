/**
 * A client of the reconciliation contracts: one resource inserted, then
 * modified once without and once with a real change.  Everything asserted
 * below follows from the contracts of `ProcessRecord` and the functions it
 * is specified by.
 */
module Scenario {
  import opened Wrappers
  import opened Values
  import opened Normalize
  import opened Durable
  import opened Dynamodb

  /** A diff that ignores the event time, the one field that changes on every poll. */
  function IgnoringEventTime(latest: Revision, current: Revision): bool {
    latest - {EventTimeField} != current - {EventTimeField}
  }

  const Keys: map<string, Attr> := map[ArnField := Attr.S("R1")]

  // the Current table's image at T1, T2 (only ttl changed) and T3 (owner changed)
  const Image1: map<string, Attr> :=
    map[ArnField := Attr.S("R1"), EventTimeField := Attr.S("T1"), "owner" := Attr.S("a"), TtlField := Attr.N(999.0)]
  const Image2: map<string, Attr> :=
    map[ArnField := Attr.S("R1"), EventTimeField := Attr.S("T2"), "owner" := Attr.S("a"), TtlField := Attr.N(1000.0)]
  const Image3: map<string, Attr> :=
    map[ArnField := Attr.S("R1"), EventTimeField := Attr.S("T3"), "owner" := Attr.S("b"), TtlField := Attr.N(1000.0)]

  // the revisions they become
  const Rev1: Revision := map[ArnField := Str("R1"), EventTimeField := Str("T1"), "owner" := Str("a")]
  const Rev2: Revision := map[ArnField := Str("R1"), EventTimeField := Str("T2"), "owner" := Str("a")]
  const Rev3: Revision := map[ArnField := Str("R1"), EventTimeField := Str("T3"), "owner" := Str("b")]

  /** An image of string attributes becomes the same fields as plain strings, less `ttl`. */
  lemma StringImage(image: map<string, Attr>, rev: Revision)
    requires TtlField in image && rev.Keys == image.Keys - {TtlField}
    requires forall k :: k in rev ==> image[k].S? && rev[k] == Str(image[k].s)
    ensures CandidateData(Some(image)) == Success(rev)
  {
    var data := CandidateData(Some(image)).value;
    forall k | k in rev ensures data[k] == rev[k] {
      assert Deserialize(image[k]) == Str(image[k].s);
    }
    assert data == rev;
  }

  lemma Candidate1() ensures CandidateData(Some(Image1)) == Success(Rev1) {
    assert Image1.Keys == {ArnField, EventTimeField, "owner", TtlField};
    StringImage(Image1, Rev1);
  }

  lemma Candidate2() ensures CandidateData(Some(Image2)) == Success(Rev2) {
    assert Image2.Keys == {ArnField, EventTimeField, "owner", TtlField};
    StringImage(Image2, Rev2);
  }

  lemma Candidate3() ensures CandidateData(Some(Image3)) == Success(Rev3) {
    assert Image3.Keys == {ArnField, EventTimeField, "owner", TtlField};
    StringImage(Image3, Rev3);
  }

  lemma LatestIsFirstInsert(t: string)
    requires t == "T2" || t == "T3"
    ensures LatestRevision([Rev1], "R1", Str(t)) == Some(Rev1)
  {
  }

  lemma Diffs()
    ensures !IgnoringEventTime(Rev1, Rev2)
    ensures IgnoringEventTime(Rev1, Rev3)
  {
    assert Rev1 - {EventTimeField} == Rev2 - {EventTimeField};
    assert "owner" in Rev1 - {EventTimeField} && (Rev1 - {EventTimeField})["owner"] == Str("a");
  }

  method InsertThenModify()
  {
    var table := new DurableTable();
    var logger := new Logger();
    assert ArnOf(Keys) == Success("R1");

    // INSERT at T1: saved without its ttl
    Candidate1();
    var r := ProcessRecord(StreamRecord(Insert, Keys, Some(Image1), None, None),
                           table, logger, IgnoringEventTime, "T9");
    assert r == Pass && table.items == [Rev1];

    // MODIFY at T2 changing only ttl: the T1 revision is found, no difference, no save
    Candidate2();
    LatestIsFirstInsert("T2");
    Diffs();
    assert Rev2[EventTimeField] == Str("T2");
    r := ProcessRecord(StreamRecord(Modify, Keys, Some(Image2), None, None),
                       table, logger, IgnoringEventTime, "T9");
    assert r == Pass && table.items == [Rev1] && logger.warnings == [];

    ChangedOwner(table, logger);
  }

  /** MODIFY at T3 changing the owner: the T1 revision differs, so a second revision is saved. */
  method ChangedOwner(table: DurableTable, logger: Logger)
    requires table.items == [Rev1]
    modifies table, logger
    ensures table.items == [Rev1, Rev3]
  {
    assert ArnOf(Keys) == Success("R1");
    Candidate3();
    LatestIsFirstInsert("T3");
    Diffs();
    assert Rev3[EventTimeField] == Str("T3");
    var r := ProcessRecord(StreamRecord(Modify, Keys, Some(Image3), None, None),
                           table, logger, IgnoringEventTime, "T9");
    assert r == Pass;
  }

  /** Narrowing and null replacement on small inputs. */
  method NormalizationExamples()
  {
    var five := ReplaceDecimals(Decimal(5.0));
    assert five == Success(Int(5));
    var fiveAndAHalf := ReplaceDecimals(Decimal(5.5));
    assert fiveAndAHalf == Success(Float(5.5));
    // the largest integral decimal the default context can test, and the first it cannot
    var largest := ReplaceDecimals(Decimal(RemainderBound - 1.0));
    assert largest.Success? && largest.value.Int?;
    var tooLarge := ReplaceDecimals(Decimal(RemainderBound));
    assert tooLarge == Failure(InvalidOperation);
    var decoded := Deserialize(Attr.M(map["a" := Attr.NULL]));
    var cleaned := ReplaceNones(decoded);
    assert decoded.fields["a"] == Null;
    assert cleaned.fields == map["a" := Dict(map[])];
  }

  /** An image holding the number 10^28, which the remainder test cannot handle. */
  const HugeImage: map<string, Attr> :=
    map[ArnField := Attr.S("R1"), "size" := Attr.N(RemainderBound), TtlField := Attr.N(1000.0)]

  lemma HugeCandidate() ensures CandidateData(Some(HugeImage)) == Failure(InvalidOperation) {
    assert "size" in HugeImage && "size" != TtlField;
    assert Deserialize(HugeImage["size"]) == Decimal(RemainderBound);
  }

  /** An INSERT of that image fails and saves nothing. */
  method HugeNumberInsert(table: DurableTable, logger: Logger)
    modifies table, logger
    ensures table.items == old(table.items)
  {
    assert ArnOf(Keys) == Success("R1");
    HugeCandidate();
    var r := ProcessRecord(StreamRecord(Insert, Keys, Some(HugeImage), None, None),
                           table, logger, IgnoringEventTime, "T9");
    assert r == Fail(InvalidOperation);
  }
}
