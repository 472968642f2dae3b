/**
  The priority merge of the first generation
  (src/micmania1/config/MergeStrategy/Priority.php).

  It differs from the current one in a single guard: a high array value is
  merged recursively whenever `low` holds a (non-null) array under the same
  key, integer keys included.  An integer-keyed array can therefore be merged
  into an existing position instead of being appended.
*/
module LegacyPriority {
  import opened Php
  import Priority

  function MergeArray(high: Entries, low: Entries): Entries
    decreases high
  {
    if high == [] then low
    else
      var k := high[0].0;
      var v := high[0].1;
      assert v < high[0];
      var low' :=
        if !v.Arr? then
          (if k.IntKey? then Append(low, v) else Put(low, k, v))
        else if !IsSet(Get(low, k)) || !Get(low, k).value.Arr? then
          (if k.IntKey? then Append(low, v) else Put(low, k, v))
        else
          Put(low, k, Arr(MergeArray(v.entries, Get(low, k).value.entries)));
      MergeArray(high[1..], low')
  }

  /** What the legacy merge leaves under a key of `high` holding `v`. */
  function MergedAt(v: Value, lowAt: Option<Value>): Value
  {
    if v.Arr? && lowAt.Some? && lowAt.value.Arr? then
      Arr(MergeArray(v.entries, lowAt.value.entries))
    else v
  }

  lemma MergeArrayUnfold(high: Entries, low: Entries)
    requires high != []
    ensures MergeArray(high, low) == MergeArray(high[1..], MergeArray(high[..1], low))
  {
    assert high[..1][1..] == [];
  }

  /**
    One pass of the loop body leaves alone every other key that is a string
    key or already present.
  */
  lemma StepKeepsOtherKey(high: Entries, low: Entries, k: Key)
    requires high != [] && high[0].0 != k
    requires k.StrKey? || HasKey(low, k)
    ensures Get(MergeArray(high[..1], low), k) == Get(low, k)
  {
    var hk, v := high[0].0, high[0].1;
    assert high[..1][1..] == [];
    if v.Arr? && IsSet(Get(low, hk)) && Get(low, hk).value.Arr? {
      GetPutOther(low, hk, Arr(MergeArray(v.entries, Get(low, hk).value.entries)), k);
    } else if hk.IntKey? {
      if k.StrKey? { GetAppendStr(low, v, k); } else { GetAppendPresent(low, v, k); }
    } else {
      GetPutOther(low, hk, v, k);
    }
  }

  /** A key `high` does not mention keeps its low value (or stays absent, for a string key). */
  lemma {:induction false} MergeArrayKeepsUnmentioned(high: Entries, low: Entries, k: Key)
    requires k.StrKey? || HasKey(low, k)
    requires forall i | 0 <= i < |high| :: high[i].0 != k
    ensures Get(MergeArray(high, low), k) == Get(low, k)
  {
    if high != [] {
      MergeArrayUnfold(high, low);
      StepKeepsOtherKey(high, low, k);
      var low' := MergeArray(high[..1], low);
      assert k.StrKey? || HasKey(low', k);
      MergeArrayKeepsUnmentioned(high[1..], low', k);
    }
  }

  /**
    Under a string key a scalar overwrites and an array merges into a low
    array or replaces anything else; under any key, integer keys included, an
    array merges into a low array at that same key.
  */
  lemma {:induction false} MergeArrayAtKey(high: Entries, low: Entries, j: nat)
    requires DistinctKeys(high) && j < |high|
    requires high[j].0.StrKey? || (high[j].1.Arr? && IsSet(Get(low, high[j].0)) && Get(low, high[j].0).value.Arr?)
    ensures Get(MergeArray(high, low), high[j].0) == Some(MergedAt(high[j].1, Get(low, high[j].0)))
  {
    var k, v := high[j].0, high[j].1;
    MergeArrayUnfold(high, low);
    var low' := MergeArray(high[..1], low);
    if j == 0 {
      assert high[..1][1..] == [];
      if v.Arr? && IsSet(Get(low, k)) && Get(low, k).value.Arr? {
        GetPutSame(low, k, Arr(MergeArray(v.entries, Get(low, k).value.entries)));
      } else {
        GetPutSame(low, k, v);
      }
      assert forall i | 0 <= i < |high[1..]| :: high[1..][i].0 != k by {
        forall i | 0 <= i < |high[1..]| ensures high[1..][i].0 != k {
          assert high[1..][i] == high[i + 1];
        }
      }
      MergeArrayKeepsUnmentioned(high[1..], low', k);
    } else {
      StepKeepsOtherKey(high, low, k);
      assert high[1..][j - 1] == high[j];
      MergeArrayAtKey(high[1..], low', j - 1);
    }
  }

  /** The foreach over `a + b` is the foreach over `a` followed by the one over `b`. */
  lemma {:induction false} MergeArrayConcat(a: Entries, b: Entries, low: Entries)
    ensures MergeArray(a + b, low) == MergeArray(b, MergeArray(a, low))
  {
    if a != [] {
      var ab := a + b;
      assert ab[0] == a[0] && ab[1..] == a[1..] + b;
      MergeArrayUnfold(ab, low);
      MergeArrayUnfold(a, low);
      assert ab[..1] == a[..1];
      MergeArrayConcat(a[1..], b, MergeArray(a[..1], low));
    } else {
      assert a + b == b;
    }
  }

  /**
    An integer-keyed entry that does not meet a set array at its key (a
    scalar, or an array where the array merged so far has nothing, null or a
    non-array under that key) is appended wherever it stands in `high`:
    processing it adds it as the last integer-keyed value and leaves the
    earlier ones in place.
  */
  lemma IntKeyAppends(high: Entries, low: Entries, j: nat)
    requires j < |high| && high[j].0.IntKey?
    requires var mid := MergeArray(high[..j], low);
      !(high[j].1.Arr? && IsSet(Get(mid, high[j].0)) && Get(mid, high[j].0).value.Arr?)
    ensures IntValues(MergeArray(high[..j + 1], low)) == IntValues(MergeArray(high[..j], low)) + [high[j].1]
  {
    var mid := MergeArray(high[..j], low);
    assert high[..j + 1] == high[..j] + [high[j]];
    MergeArrayConcat(high[..j], [high[j]], low);
    assert [high[j]][1..] == [];
    IntValuesAppend(mid, high[j].1);
  }

  /**
    The two generations part ways on an integer-keyed array that meets a low
    array at the same key: the legacy merge folds it into that position, the
    current one leaves the position alone and appends the array instead.
  */
  lemma IntKeyedArrayDivergence(high: Entries, low: Entries, j: nat)
    requires DistinctKeys(high) && j < |high|
    requires high[j].0.IntKey? && high[j].1.Arr?
    requires Get(low, high[j].0).Some? && Get(low, high[j].0).value.Arr?
    ensures Get(MergeArray(high, low), high[j].0)
         == Some(Arr(MergeArray(high[j].1.entries, Get(low, high[j].0).value.entries)))
    ensures Get(Priority.MergeArray(high, low), high[j].0) == Get(low, high[j].0)
    ensures |IntValues(Priority.MergeArray(high, low))| == |IntValues(low)| + |IntValues(high)|
  {
    MergeArrayAtKey(high, low, j);
    Priority.MergeArrayKeepsIntKey(high, low, high[j].0);
    Priority.MergeArrayIntValues(high, low);
  }

  /** Merging into an array without repeated keys yields one without repeated keys. */
  lemma {:induction false} MergeArrayDistinct(high: Entries, low: Entries)
    requires DistinctKeys(low)
    ensures DistinctKeys(MergeArray(high, low))
  {
    if high != [] {
      var k, v := high[0].0, high[0].1;
      MergeArrayUnfold(high, low);
      assert high[..1][1..] == [];
      if v.Arr? && IsSet(Get(low, k)) && Get(low, k).value.Arr? {
        PutDistinct(low, k, Arr(MergeArray(v.entries, Get(low, k).value.entries)));
      } else if k.IntKey? {
        AppendDistinct(low, v);
      } else {
        PutDistinct(low, k, v);
      }
      MergeArrayDistinct(high[1..], MergeArray(high[..1], low));
    }
  }
}
