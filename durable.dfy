/**
 * The durable table as the stream processor sees it: an append-only log of
 * revisions, a `save` that appends one, and a `query` for the newest revision
 * of an ARN at or before a given event time (descending order, limit 1).
 * Also the logger, whose warnings are kept as a ghost list.
 *
 * A revision is the attribute map handed to the durable model.  `arn` is the
 * hash key and `eventTime` the range key; event times are strings (ISO-8601
 * timestamps) and DynamoDB orders string range keys by their code points.
 */
module Durable {
  import opened Wrappers
  import opened Values

  type Revision = map<string, Value>

  const ArnField := "arn"
  const EventTimeField := "eventTime"

  /**
   * Building a durable model item from `data`: the range key defaults to the
   * store's own clock reading `now` when `data` does not supply one.
   */
  function DurableModel(data: Revision, now: string): (r: Revision)
    ensures r.Keys == data.Keys + {EventTimeField}
    ensures forall k :: k in data ==> r[k] == data[k]
    ensures EventTimeField !in data ==> r[EventTimeField] == Str(now)
  {
    if EventTimeField in data then data else data[EventTimeField := Str(now)]
  }

  // -------------------------------------------------- ordering of event times

  /** Lexicographic order on strings, character by character. */
  predicate StrLe(a: string, b: string)
    decreases |a|
  {
    |a| == 0 || (|b| > 0 && (a[0] < b[0] || (a[0] == b[0] && StrLe(a[1..], b[1..]))))
  }

  lemma {:induction false} StrLeTotal(a: string, b: string)
    ensures StrLe(a, b) || StrLe(b, a)
    decreases |a|
  {
    if |a| > 0 && |b| > 0 && a[0] == b[0] {
      StrLeTotal(a[1..], b[1..]);
    }
  }

  lemma {:induction false} StrLeTransitive(a: string, b: string, c: string)
    requires StrLe(a, b) && StrLe(b, c)
    ensures StrLe(a, c)
    decreases |a|
  {
    if |a| > 0 && a[0] == b[0] && b[0] == c[0] {
      StrLeTransitive(a[1..], b[1..], c[1..]);
    }
  }

  /** The range-key condition `eventTime <= t`; only strings compare. */
  predicate TimeLe(a: Value, b: Value) {
    a.Str? && b.Str? && StrLe(a.s, b.s)
  }

  // ------------------------------------------------------------------- query

  /** `rev` is an item of `arn` whose event time is at or before `t`. */
  predicate Matches(rev: Revision, arn: string, t: Value) {
    && ArnField in rev && rev[ArnField] == Str(arn)
    && EventTimeField in rev && TimeLe(rev[EventTimeField], t)
  }

  /**
   * `items[i]` is the answer to the query: it matches, no matching item has a
   * later event time, and no later-saved matching item has the same one (a
   * save with an existing key replaces the item).
   */
  ghost predicate IsLatest(items: seq<Revision>, arn: string, t: Value, i: int) {
    && 0 <= i < |items|
    && Matches(items[i], arn, t)
    && (forall j :: 0 <= j < |items| && Matches(items[j], arn, t) ==>
          TimeLe(items[j][EventTimeField], items[i][EventTimeField]))
    && (forall j :: i < j < |items| && Matches(items[j], arn, t) ==>
          !TimeLe(items[i][EventTimeField], items[j][EventTimeField]))
  }

  /** The position of the revision the query returns, if any. */
  function LatestIndex(items: seq<Revision>, arn: string, t: Value): (r: Option<nat>)
    ensures r.Some? ==> IsLatest(items, arn, t, r.value)
    ensures r.None? <==> forall j :: 0 <= j < |items| ==> !Matches(items[j], arn, t)
    decreases |items|
  {
    if items == [] then None
    else
      var n := |items| - 1;
      var prev := LatestIndex(items[..n], arn, t);
      if !Matches(items[n], arn, t) then
        prev
      else if prev.Some? && !TimeLe(items[prev.value][EventTimeField], items[n][EventTimeField]) then
        LatestKeep(items, arn, t, prev.value);
        prev
      else
        LatestStep(items, arn, t, prev);
        Some(n)
  }

  /** The last item becomes the answer when it matches and is not earlier than the previous answer. */
  lemma LatestStep(items: seq<Revision>, arn: string, t: Value, prev: Option<nat>)
    requires |items| > 0
    requires prev.Some? ==> IsLatest(items[..|items| - 1], arn, t, prev.value)
    requires prev.None? ==> forall j :: 0 <= j < |items| - 1 ==> !Matches(items[j], arn, t)
    requires Matches(items[|items| - 1], arn, t)
    requires prev.Some? ==> TimeLe(items[prev.value][EventTimeField], items[|items| - 1][EventTimeField])
    ensures IsLatest(items, arn, t, |items| - 1)
  {
    var n := |items| - 1;
    forall j | 0 <= j < |items| && Matches(items[j], arn, t)
      ensures TimeLe(items[j][EventTimeField], items[n][EventTimeField])
    {
      if j == n {
        StrLeTotal(items[n][EventTimeField].s, items[n][EventTimeField].s);
      } else {
        assert items[..n][j] == items[j];
        StrLeTransitive(items[j][EventTimeField].s, items[prev.value][EventTimeField].s,
                        items[n][EventTimeField].s);
      }
    }
  }

  /** The previous answer stays the answer when the last item matches but is strictly earlier. */
  lemma LatestKeep(items: seq<Revision>, arn: string, t: Value, p: nat)
    requires |items| > 0
    requires IsLatest(items[..|items| - 1], arn, t, p)
    requires Matches(items[|items| - 1], arn, t)
    requires !TimeLe(items[p][EventTimeField], items[|items| - 1][EventTimeField])
    ensures IsLatest(items, arn, t, p)
  {
    var n := |items| - 1;
    assert items[..n][p] == items[p];
    StrLeTotal(items[p][EventTimeField].s, items[n][EventTimeField].s);
    forall j | 0 <= j < n && Matches(items[j], arn, t)
      ensures TimeLe(items[j][EventTimeField], items[p][EventTimeField])
    {
      assert items[..n][j] == items[j];
    }
    forall j | p < j < n && Matches(items[j], arn, t)
      ensures !TimeLe(items[p][EventTimeField], items[j][EventTimeField])
    {
      assert items[..n][j] == items[j];
    }
  }

  /** The query's single answer is determined by the log: two answers are the same item. */
  lemma LatestIsUnique(items: seq<Revision>, arn: string, t: Value, i: int, k: int)
    requires IsLatest(items, arn, t, i) && IsLatest(items, arn, t, k)
    ensures i == k
  {
  }

  /** The revision the query returns, if any. */
  function LatestRevision(items: seq<Revision>, arn: string, t: Value): (r: Option<Revision>)
    ensures r.None? <==> forall j :: 0 <= j < |items| ==> !Matches(items[j], arn, t)
    ensures r.Some? ==> r.value in items && Matches(r.value, arn, t)
    ensures r.Some? ==> forall j :: 0 <= j < |items| && Matches(items[j], arn, t) ==>
              TimeLe(items[j][EventTimeField], r.value[EventTimeField])
  {
    match LatestIndex(items, arn, t)
    case None => None
    case Some(i) => Some(items[i])
  }

  // ------------------------------------------------------------------- store

  /** The durable table: every saved revision, in the order of the saves. */
  class DurableTable {
    var items: seq<Revision>

    constructor ()
      ensures items == []
    {
      items := [];
    }

    /** Saving an item: one more revision, nothing else changes. */
    method Save(rev: Revision)
      modifies this
      ensures items == old(items) + [rev]
    {
      items := items + [rev];
    }

    /** The range query: newest first, at most one item, event time at or before `t`. */
    method Query(arn: string, t: Value) returns (r: Option<Revision>)
      ensures r == LatestRevision(items, arn, t)
    {
      r := LatestRevision(items, arn, t);
    }
  }

  // ----------------------------------------------------------------- logging

  datatype Warning = NoPriorRevision(arn: string)

  /** The `historical` logger; only its warnings are recorded. */
  class Logger {
    ghost var warnings: seq<Warning>

    constructor ()
      ensures warnings == []
    {
      warnings := [];
    }

    method Warn(w: Warning)
      modifies this
      ensures warnings == old(warnings) + [w]
    {
      warnings := warnings + [w];
    }
  }
}
