/**
  The priority merge of the current generation (src/MergeStrategy/Priority.php).

  `MergeArray(high, low)` walks `high` in order and folds each entry into
  `low`:
  - under an integer key the value is appended (`$low[] = $v`), never written
    to an existing position;
  - under a string key a non-array value overwrites;
  - under a string key an array value is merged recursively when `low` already
    holds an array there, and replaces the low value wholesale otherwise.
*/
module Priority {
  import opened Php

  /** `array_key_exists($k, $low) && is_array($low[$k])` */
  predicate ArrayAt(a: Entries, k: Key)
  {
    Get(a, k).Some? && Get(a, k).value.Arr?
  }

  function MergeArray(high: Entries, low: Entries): Entries
    decreases high
  {
    if high == [] then low
    else
      var k := high[0].0;
      var v := high[0].1;
      assert v < high[0];
      var low' :=
        if !v.Arr? then
          (if k.IntKey? then Append(low, v) else Put(low, k, v))
        else if k.IntKey? || !ArrayAt(low, k) then
          (if k.IntKey? then Append(low, v) else Put(low, k, v))
        else
          Put(low, k, Arr(MergeArray(v.entries, Get(low, k).value.entries)));
      MergeArray(high[1..], low')
  }

  /**
    What `MergeArray` leaves under a string key of `high` whose value is `v`,
    given what `low` held there.
  */
  function MergedAt(v: Value, lowAt: Option<Value>): Value
  {
    if v.Arr? && lowAt.Some? && lowAt.value.Arr? then
      Arr(MergeArray(v.entries, lowAt.value.entries))
    else v
  }

  /** One pass of the loop body never touches a string key other than its own. */
  lemma StepKeepsOtherStrKey(high: Entries, low: Entries, k: Key)
    requires high != [] && k.StrKey? && high[0].0 != k
    ensures Get(MergeArray(high[..1], low), k) == Get(low, k)
  {
    var hk, v := high[0].0, high[0].1;
    assert high[..1][1..] == [];
    if hk.IntKey? {
      GetAppendStr(low, v, k);
    } else if !v.Arr? || !ArrayAt(low, hk) {
      GetPutOther(low, hk, v, k);
    } else {
      GetPutOther(low, hk, Arr(MergeArray(v.entries, Get(low, hk).value.entries)), k);
    }
  }

  /** The array the first pass of the loop hands to the rest of it. */
  lemma MergeArrayUnfold(high: Entries, low: Entries)
    requires high != []
    ensures MergeArray(high, low) == MergeArray(high[1..], MergeArray(high[..1], low))
  {
    assert high[..1][1..] == [];
  }

  /** A string key that `high` does not mention keeps its low value. */
  lemma {:induction false} MergeArrayKeepsUnmentionedStrKey(high: Entries, low: Entries, k: Key)
    requires k.StrKey?
    requires forall i | 0 <= i < |high| :: high[i].0 != k
    ensures Get(MergeArray(high, low), k) == Get(low, k)
  {
    if high != [] {
      MergeArrayUnfold(high, low);
      StepKeepsOtherStrKey(high, low, k);
      MergeArrayKeepsUnmentionedStrKey(high[1..], MergeArray(high[..1], low), k);
    }
  }

  /**
    An integer key already present in `low` keeps its low value: integer-keyed
    entries of `high` are appended after it, never written onto it.
  */
  lemma {:induction false} MergeArrayKeepsIntKey(high: Entries, low: Entries, k: Key)
    requires k.IntKey? && HasKey(low, k)
    ensures Get(MergeArray(high, low), k) == Get(low, k)
  {
    if high != [] {
      var hk, v := high[0].0, high[0].1;
      MergeArrayUnfold(high, low);
      assert high[..1][1..] == [];
      var low' := MergeArray(high[..1], low);
      if hk.IntKey? {
        GetAppendPresent(low, v, k);
      } else if !v.Arr? || !ArrayAt(low, hk) {
        GetPutOther(low, hk, v, k);
      } else {
        GetPutOther(low, hk, Arr(MergeArray(v.entries, Get(low, hk).value.entries)), k);
      }
      MergeArrayKeepsIntKey(high[1..], low', k);
    }
  }

  /**
    Under a string key of `high`: a non-array value overwrites; an array value
    is merged recursively into a low array and replaces anything else.
  */
  lemma {:induction false} MergeArrayAtStrKey(high: Entries, low: Entries, j: nat)
    requires DistinctKeys(high) && j < |high| && high[j].0.StrKey?
    ensures Get(MergeArray(high, low), high[j].0) == Some(MergedAt(high[j].1, Get(low, high[j].0)))
  {
    var k, v := high[j].0, high[j].1;
    MergeArrayUnfold(high, low);
    var low' := MergeArray(high[..1], low);
    if j == 0 {
      assert high[..1][1..] == [];
      if v.Arr? && ArrayAt(low, k) {
        GetPutSame(low, k, Arr(MergeArray(v.entries, Get(low, k).value.entries)));
      } else {
        GetPutSame(low, k, v);
      }
      assert forall i | 0 <= i < |high[1..]| :: high[1..][i].0 != k by {
        forall i | 0 <= i < |high[1..]| ensures high[1..][i].0 != k {
          assert high[1..][i] == high[i + 1];
        }
      }
      MergeArrayKeepsUnmentionedStrKey(high[1..], low', k);
    } else {
      StepKeepsOtherStrKey(high, low, k);
      assert high[1..][j - 1] == high[j];
      MergeArrayAtStrKey(high[1..], low', j - 1);
    }
  }

  /**
    Integer-keyed entries accumulate: the integer-keyed values of the result
    are those of `low` followed by those of `high`, so the counts add up.
  */
  lemma {:induction false} MergeArrayIntValues(high: Entries, low: Entries)
    ensures IntValues(MergeArray(high, low)) == IntValues(low) + IntValues(high)
    ensures |IntValues(MergeArray(high, low))| == |IntValues(low)| + |IntValues(high)|
  {
    if high != [] {
      var k, v := high[0].0, high[0].1;
      MergeArrayUnfold(high, low);
      assert high[..1][1..] == [];
      var low' := MergeArray(high[..1], low);
      if k.IntKey? {
        IntValuesAppend(low, v);
      } else if !v.Arr? || !ArrayAt(low, k) {
        IntValuesPutStr(low, k, v);
      } else {
        IntValuesPutStr(low, k, Arr(MergeArray(v.entries, Get(low, k).value.entries)));
      }
      MergeArrayIntValues(high[1..], low');
    }
  }

  /**
    The low array survives as a prefix of the result: its keys keep their
    order, and every entry whose key is not a string key of `high` keeps its
    value.  In particular no integer-keyed low entry is ever overwritten.
  */
  lemma {:induction false} MergeArrayKeepsLow(high: Entries, low: Entries)
    ensures high == [] ==> MergeArray(high, low) == low
    ensures |MergeArray(high, low)| >= |low|
    ensures forall i | 0 <= i < |low| :: MergeArray(high, low)[i].0 == low[i].0
    ensures forall i | 0 <= i < |low| && low[i].0 !in StrKeys(high) :: MergeArray(high, low)[i] == low[i]
  {
    if high != [] {
      var k, v := high[0].0, high[0].1;
      MergeArrayUnfold(high, low);
      assert high[..1][1..] == [];
      var low' := MergeArray(high[..1], low);
      assert |low'| >= |low|;
      assert forall i | 0 <= i < |low| :: low'[i].0 == low[i].0;
      assert forall i | 0 <= i < |low| && low[i].0 !in StrKeys(high) :: low'[i] == low[i] by {
        forall i | 0 <= i < |low| && low[i].0 !in StrKeys(high) ensures low'[i] == low[i] {
          if k.StrKey? {
            assert k in StrKeys(high);
          }
        }
      }
      MergeArrayKeepsLow(high[1..], low');
      assert StrKeys(high[1..]) <= StrKeys(high) by {
        forall x | x in StrKeys(high[1..]) ensures x in StrKeys(high) {
          var i :| 0 <= i < |high[1..]| && high[1..][i].0.StrKey? && high[1..][i].0 == x;
          assert high[i + 1] == high[1..][i];
        }
      }
    }
  }

  /** Merging into an array without repeated keys yields one without repeated keys. */
  lemma {:induction false} MergeArrayDistinct(high: Entries, low: Entries)
    requires DistinctKeys(low)
    ensures DistinctKeys(MergeArray(high, low))
  {
    if high != [] {
      var k, v := high[0].0, high[0].1;
      MergeArrayUnfold(high, low);
      assert high[..1][1..] == [];
      if k.IntKey? {
        AppendDistinct(low, v);
      } else if !v.Arr? || !ArrayAt(low, k) {
        PutDistinct(low, k, v);
      } else {
        PutDistinct(low, k, Arr(MergeArray(v.entries, Get(low, k).value.entries)));
      }
      MergeArrayDistinct(high[1..], MergeArray(high[..1], low));
    }
  }

  /**
    Merging is not idempotent: as soon as `x` holds an integer-keyed entry,
    merging it a second time appends that entry again.
  */
  lemma MergeArrayNotIdempotent(x: Entries, y: Entries)
    requires IntValues(x) != []
    ensures MergeArray(x, MergeArray(x, y)) != MergeArray(x, y)
  {
    MergeArrayIntValues(x, y);
    MergeArrayIntValues(x, MergeArray(x, y));
  }

  /**
    When the two arrays share no string key, the string-keyed view of the
    merge is their union whichever array has priority.
  */
  lemma DisjointStrKeysCommute(a: Entries, b: Entries, k: Key)
    requires DistinctKeys(a) && DistinctKeys(b)
    requires StrKeys(a) !! StrKeys(b)
    requires k.StrKey?
    ensures Get(MergeArray(a, b), k) == Get(MergeArray(b, a), k)
  {
    if j :| 0 <= j < |a| && a[j].0 == k {
      assert k in StrKeys(a);
      assert forall i | 0 <= i < |b| :: b[i].0 != k by {
        forall i | 0 <= i < |b| ensures b[i].0 != k {
          assert b[i].0.StrKey? ==> b[i].0 in StrKeys(b);
        }
      }
      MergeArrayAtStrKey(a, b, j);
      MergeArrayKeepsUnmentionedStrKey(b, a, k);
      GetAt(a, j);
    } else if j :| 0 <= j < |b| && b[j].0 == k {
      assert k in StrKeys(b);
      MergeArrayAtStrKey(b, a, j);
      MergeArrayKeepsUnmentionedStrKey(a, b, k);
      GetAt(b, j);
    } else {
      MergeArrayKeepsUnmentionedStrKey(a, b, k);
      MergeArrayKeepsUnmentionedStrKey(b, a, k);
    }
  }

  /* ----- Items handed to merge() ----- */

  /** A normalised item: its value and its metadata. */
  datatype Item = Item(value: Value, metadata: Value)

  /**
    `normaliseItem`: reads the `value` and `metadata` sub-keys of an item,
    defaulting a missing or null value to `''` and missing or null metadata
    to `[]`.
  */
  function NormaliseItem(item: Entries): (r: Item)
    ensures !r.value.Null? && !r.metadata.Null?
    ensures IsSet(Get(item, StrKey("value"))) ==> r.value == Get(item, StrKey("value")).value
    ensures !IsSet(Get(item, StrKey("value"))) ==> r.value == Str("")
    ensures IsSet(Get(item, StrKey("metadata"))) ==> r.metadata == Get(item, StrKey("metadata")).value
    ensures !IsSet(Get(item, StrKey("metadata"))) ==> r.metadata == Arr([])
  {
    var value := Get(item, StrKey("value"));
    var metadata := Get(item, StrKey("metadata"));
    Item(if IsSet(value) then value.value else Str(""),
         if IsSet(metadata) then metadata.value else Arr([]))
  }

  /**
    Metadata inheritance AS WRITTEN: empty incoming metadata takes the
    target's metadata for the class, looked up under the class name exactly
    as given, although the collection stores metadata under the lowercased
    name.
  */
  function InheritMetadataAsWritten(metadata: Value, theirMetadata: map<string, Value>, className: string): Value
  {
    if !Truthy(metadata) && className in theirMetadata && !theirMetadata[className].Null?
    then theirMetadata[className]
    else metadata
  }

  /**
    The as-written lookup misses the stored metadata of a mixed-case class:
    merging an item for "Foo" with empty metadata into a collection holding
    metadata for "foo" keeps the empty metadata.
  */
  lemma InheritMetadataAsWrittenMissesMixedCase(stored: Value)
    requires !stored.Null? && Truthy(stored)
    ensures Lower("Foo") == "foo"
    ensures InheritMetadataAsWritten(Arr([]), map["foo" := stored], "Foo") == Arr([])
    ensures InheritMetadataAsWritten(Arr([]), map["foo" := stored], "Foo") != stored
  {
    assert Lower("Foo")[0] == 'f';
    assert Lower("Foo") == "foo";
  }

  /**
    Metadata inheritance, corrected to look the class up under its lowercased
    name, the key the collection stores metadata under.
  */
  function InheritMetadata(metadata: Value, theirMetadata: map<string, Value>, className: string): (r: Value)
    ensures Truthy(metadata) ==> r == metadata
    ensures !Truthy(metadata) && IsSet(if Lower(className) in theirMetadata then Some(theirMetadata[Lower(className)]) else None)
      ==> r == theirMetadata[Lower(className)]
    ensures !Truthy(metadata) && !IsSet(if Lower(className) in theirMetadata then Some(theirMetadata[Lower(className)]) else None)
      ==> r == metadata
  {
    InheritMetadataAsWritten(metadata, theirMetadata, Lower(className))
  }

  /** The corrected lookup does not depend on the case of the class name. */
  lemma InheritMetadataIgnoresCase(metadata: Value, theirMetadata: map<string, Value>, c1: string, c2: string)
    requires Lower(c1) == Lower(c2)
    ensures InheritMetadata(metadata, theirMetadata, c1) == InheritMetadata(metadata, theirMetadata, c2)
  {
  }
}
