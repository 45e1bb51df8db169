/**
 * The value clean-up helpers of historical/common/dynamodb.py: dropping the
 * Current-table-only `ttl` field, narrowing decimals and replacing nulls.
 *
 * The source rewrites lists and dicts in place, one element at a time.  The
 * methods `ReplaceDecimals` and `ReplaceNones` keep those loops, over a local
 * copy of the list or dict, and are proved equal to the specification
 * functions `NarrowDecimals` and `NullsToEmpty`, whose properties are the
 * lemmas below.
 */
module Normalize {
  import opened Wrappers
  import opened Values

  /**
   * What the source can raise: a KeyError (the named key was looked up but is
   * absent), or the decimal module's InvalidOperation.
   */
  datatype Error = KeyError(key: string) | InvalidOperation

  /** The field only the Current table carries. */
  const TtlField := "ttl"

  /** Drops `ttl`; deleting a key that is absent raises a KeyError. */
  function RemoveCurrentSpecificFields<V>(obj: map<string, V>): (r: Result<map<string, V>, Error>)
    ensures r.Failure? <==> TtlField !in obj
    ensures r.Failure? ==> r.error == KeyError(TtlField)
    ensures r.Success? ==> r.value.Keys == obj.Keys - {TtlField}
    ensures r.Success? ==> forall k :: k in r.value ==> r.value[k] == obj[k]
  {
    if TtlField in obj then Success(obj - {TtlField}) else Failure(KeyError(TtlField))
  }

  // ---------------------------------------------------------------- decimals

  /**
   * 10^28.  The test `d % 1` runs in Python's default decimal context, whose
   * precision is 28 digits.  The integer quotient of `d` by 1 must fit in that
   * precision; when |d| is 10^28 or more it does not, and the remainder
   * signals DivisionImpossible, which the default context traps as
   * InvalidOperation.
   */
  const RemainderBound: real := 10000000000000000000000000000.0

  /** `d % 1` is defined in the default decimal context. */
  predicate RemainderDefined(d: real) {
    -RemainderBound < d < RemainderBound
  }

  /** The decimal has no fractional part (its remainder modulo 1 is zero). */
  predicate IsIntegral(d: real) {
    d.Floor as real == d
  }

  /** No `Decimal` is left anywhere in `v` (number sets are not descended into). */
  predicate NoDecimals(v: Value)
    decreases v
  {
    match v
    case Decimal(_) => false
    case List(xs) => forall i :: 0 <= i < |xs| ==> NoDecimals(xs[i])
    case Dict(m) => forall k :: k in m ==> NoDecimals(m[k])
    case _ => true
  }

  /** Every decimal in `v` outside number sets can be tested for a fractional part. */
  predicate Narrowable(v: Value)
    decreases v
  {
    match v
    case Decimal(d) => RemainderDefined(d)
    case List(xs) => forall i :: 0 <= i < |xs| ==> Narrowable(xs[i])
    case Dict(m) => forall k :: k in m ==> Narrowable(m[k])
    case _ => true
  }

  /**
   * A single decimal narrowed: an int when it has no fractional part, else a
   * float; InvalidOperation when the remainder test itself is invalid.
   */
  function NarrowDecimal(d: real): (r: Result<Value, Error>)
    ensures r.Failure? <==> !RemainderDefined(d)
    ensures r.Failure? ==> r.error == InvalidOperation
    ensures r.Success? && IsIntegral(d) ==> r.value.Int? && r.value.i as real == d
    ensures r.Success? && !IsIntegral(d) ==> r.value == Float(d)
  {
    if !RemainderDefined(d) then Failure(InvalidOperation)
    else if IsIntegral(d) then Success(Int(d.Floor))
    else Success(Float(d))
  }

  /** What `replace_decimals` returns for `v`, or the error it raises. */
  function NarrowDecimals(v: Value): (r: Result<Value, Error>)
    ensures r.Success? <==> Narrowable(v)
    ensures r.Failure? ==> r.error == InvalidOperation
    ensures r.Success? ==> NoDecimals(r.value)
    ensures r.Success? ==> (v.List? <==> r.value.List?)
    ensures r.Success? && v.List? ==> |r.value.items| == |v.items|
    ensures r.Success? ==> (v.Dict? <==> r.value.Dict?)
    ensures r.Success? && v.Dict? ==> r.value.fields.Keys == v.fields.Keys
    ensures v.Decimal? ==> r == NarrowDecimal(v.d)
    ensures IsLeaf(v) && !v.Decimal? ==> r == Success(v)
    decreases v
  {
    match v
    case List(xs) =>
      if forall i :: 0 <= i < |xs| ==> NarrowDecimals(xs[i]).Success? then
        Success(List(seq(|xs|, i requires 0 <= i < |xs| && NarrowDecimals(xs[i]).Success? =>
                                 NarrowDecimals(xs[i]).value)))
      else Failure(InvalidOperation)
    case Dict(m) =>
      if forall k :: k in m ==> NarrowDecimals(m[k]).Success? then
        Success(Dict(map k | k in m :: NarrowDecimals(m[k]).value))
      else Failure(InvalidOperation)
    case Decimal(d) => NarrowDecimal(d)
    case _ => Success(v)
  }

  /** Narrowing leaves a value without decimals as it is, and cannot fail on it. */
  lemma {:induction false} NarrowDecimalsFixesNoDecimals(v: Value)
    requires NoDecimals(v)
    ensures NarrowDecimals(v) == Success(v)
    decreases v
  {
    match v
    case List(xs) =>
      forall i | 0 <= i < |xs| ensures NarrowDecimals(xs[i]) == Success(xs[i]) {
        NarrowDecimalsFixesNoDecimals(xs[i]);
      }
      assert NarrowDecimals(v).value.items == xs;
    case Dict(m) =>
      forall k | k in m ensures NarrowDecimals(m[k]) == Success(m[k]) {
        NarrowDecimalsFixesNoDecimals(m[k]);
      }
      assert NarrowDecimals(v).value.fields == m;
    case _ =>
  }

  /** Applying `replace_decimals` to its own result returns that result again. */
  lemma {:induction false} NarrowDecimalsIdempotent(v: Value)
    ensures NarrowDecimals(v).Success? ==>
              NarrowDecimals(NarrowDecimals(v).value) == NarrowDecimals(v)
  {
    if NarrowDecimals(v).Success? {
      NarrowDecimalsFixesNoDecimals(NarrowDecimals(v).value);
    }
  }

  /** `replace_decimals`: lists by index and dicts by key are rewritten in turn. */
  method ReplaceDecimals(v: Value) returns (r: Result<Value, Error>)
    ensures r == NarrowDecimals(v)
    decreases v, 1
  {
    match v
    case List(xs) =>
      var ys :- ReplaceDecimalsInList(xs);
      assert ys == NarrowDecimals(v).value.items;
      r := Success(List(ys));
    case Dict(m) =>
      var fields :- ReplaceDecimalsInDict(m);
      assert fields == NarrowDecimals(v).value.fields;
      r := Success(Dict(fields));
    case Decimal(d) =>
      r := NarrowDecimal(d);
    case _ =>
      r := Success(v);
  }

  /**
   * The list branch: each element, by index, replaced by its narrowing; the
   * first element that cannot be narrowed aborts the loop.
   */
  method ReplaceDecimalsInList(xs: seq<Value>) returns (r: Result<seq<Value>, Error>)
    ensures r.Success? <==> forall j :: 0 <= j < |xs| ==> NarrowDecimals(xs[j]).Success?
    ensures r.Failure? ==> r.error == InvalidOperation
    ensures r.Success? ==> |r.value| == |xs|
    ensures r.Success? ==> forall j :: 0 <= j < |xs| ==> r.value[j] == NarrowDecimals(xs[j]).value
    decreases List(xs), 0
  {
    var ys := xs;
    var i := 0;
    while i < |ys|
      invariant 0 <= i <= |ys| == |xs|
      invariant forall j :: 0 <= j < i ==>
                  NarrowDecimals(xs[j]).Success? && ys[j] == NarrowDecimals(xs[j]).value
      invariant forall j :: i <= j < |ys| ==> ys[j] == xs[j]
    {
      var y :- ReplaceDecimals(xs[i]);
      ys := ys[i := y];
      i := i + 1;
    }
    r := Success(ys);
  }

  /**
   * The dict branch: each value, key by key, replaced by its narrowing; the
   * first value that cannot be narrowed aborts the loop.
   */
  method ReplaceDecimalsInDict(m: map<string, Value>) returns (r: Result<map<string, Value>, Error>)
    ensures r.Success? <==> forall k :: k in m ==> NarrowDecimals(m[k]).Success?
    ensures r.Failure? ==> r.error == InvalidOperation
    ensures r.Success? ==> r.value.Keys == m.Keys
    ensures r.Success? ==> forall k :: k in m ==> r.value[k] == NarrowDecimals(m[k]).value
    decreases Dict(m), 0
  {
    var fields := m;
    var todo := m.Keys;
    while todo != {}
      invariant todo <= m.Keys == fields.Keys
      invariant forall k :: k in m && k !in todo ==>
                  NarrowDecimals(m[k]).Success? && fields[k] == NarrowDecimals(m[k]).value
      invariant forall k :: k in todo ==> fields[k] == m[k]
      decreases |todo|
    {
      var k :| k in todo;
      var y :- ReplaceDecimals(m[k]);
      fields := fields[k := y];
      todo := todo - {k};
    }
    r := Success(fields);
  }

  // ------------------------------------------------------------------- nulls

  /** No `Null` is left anywhere in `v`. */
  predicate NoNulls(v: Value)
    decreases v
  {
    match v
    case Null => false
    case List(xs) => forall i :: 0 <= i < |xs| ==> NoNulls(xs[i])
    case Dict(m) => forall k :: k in m ==> NoNulls(m[k])
    case _ => true
  }

  /** What `replace_nones` returns for `v`. */
  function NullsToEmpty(v: Value): (r: Value)
    ensures NoNulls(r)
    ensures v.List? <==> r.List?
    ensures v.List? ==> |r.items| == |v.items|
    ensures v.Dict? ==> r.Dict? && r.fields.Keys == v.fields.Keys
    ensures v.Null? ==> r == Dict(map[])
    ensures IsLeaf(v) && !v.Null? ==> r == v
    decreases v
  {
    match v
    case List(xs) => List(seq(|xs|, i requires 0 <= i < |xs| => NullsToEmpty(xs[i])))
    case Dict(m) => Dict(map k | k in m :: NullsToEmpty(m[k]))
    case Null => Dict(map[])
    case _ => v
  }

  /** Replacing nulls leaves a value without nulls as it is. */
  lemma {:induction false} NullsToEmptyFixesNoNulls(v: Value)
    requires NoNulls(v)
    ensures NullsToEmpty(v) == v
    decreases v
  {
    match v
    case List(xs) =>
      forall i | 0 <= i < |xs| ensures NullsToEmpty(xs[i]) == xs[i] {
        NullsToEmptyFixesNoNulls(xs[i]);
      }
      assert NullsToEmpty(v).items == xs;
    case Dict(m) =>
      forall k | k in m ensures NullsToEmpty(m[k]) == m[k] {
        NullsToEmptyFixesNoNulls(m[k]);
      }
      assert NullsToEmpty(v).fields == m;
    case _ =>
  }

  /** Applying `replace_nones` twice is the same as applying it once. */
  lemma {:induction false} NullsToEmptyIdempotent(v: Value)
    ensures NullsToEmpty(NullsToEmpty(v)) == NullsToEmpty(v)
  {
    NullsToEmptyFixesNoNulls(NullsToEmpty(v));
  }

  /** `replace_nones`: lists by index and dicts by key are rewritten in turn. */
  method ReplaceNones(v: Value) returns (r: Value)
    ensures r == NullsToEmpty(v)
    decreases v, 1
  {
    match v
    case List(xs) =>
      var ys := ReplaceNonesInList(xs);
      r := List(ys);
    case Dict(m) =>
      var fields := ReplaceNonesInDict(m);
      r := Dict(fields);
    case Null =>
      r := Dict(map[]);
    case _ =>
      r := v;
  }

  /** The list branch: each element, by index, replaced with its nulls turned into empty dicts. */
  method ReplaceNonesInList(xs: seq<Value>) returns (ys: seq<Value>)
    ensures |ys| == |xs|
    ensures forall j :: 0 <= j < |xs| ==> ys[j] == NullsToEmpty(xs[j])
    decreases List(xs), 0
  {
    ys := xs;
    var i := 0;
    while i < |ys|
      invariant 0 <= i <= |ys| == |xs|
      invariant forall j :: 0 <= j < i ==> ys[j] == NullsToEmpty(xs[j])
      invariant forall j :: i <= j < |ys| ==> ys[j] == xs[j]
    {
      var y := ReplaceNones(xs[i]);
      ys := ys[i := y];
      i := i + 1;
    }
  }

  /** The dict branch: each value, key by key, replaced with its nulls turned into empty dicts. */
  method ReplaceNonesInDict(m: map<string, Value>) returns (fields: map<string, Value>)
    ensures fields.Keys == m.Keys
    ensures forall k :: k in m ==> fields[k] == NullsToEmpty(m[k])
    decreases Dict(m), 0
  {
    fields := m;
    var todo := m.Keys;
    while todo != {}
      invariant todo <= m.Keys == fields.Keys
      invariant forall k :: k in m && k !in todo ==> fields[k] == NullsToEmpty(m[k])
      invariant forall k :: k in todo ==> fields[k] == m[k]
      decreases |todo|
    {
      var k :| k in todo;
      var y := ReplaceNones(m[k]);
      fields := fields[k := y];
      todo := todo - {k};
    }
  }
}
