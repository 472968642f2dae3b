/**
  `Priority::merge` of the current generation (src/MergeStrategy/Priority.php):
  folds a map of class name to `['value' => ..., 'metadata' => ...]` items
  into a mutable collection, one `set` per item.
*/
module PriorityMerge {
  import opened Php
  import opened MiddlewareAware
  import opened ConfigState
  import opened Priority
  import opened MemoryCollection

  /**
    One item: a class the target does not report as existing (through its
    middleware) is set outright; otherwise the new value is deep-merged with
    the raw stored one when both are arrays, and empty metadata inherits the
    target's.  Metadata inheritance uses the corrected, lowercased lookup.
  */
  function MergeItem(s: Snapshot, ms: seq<Middleware>, className: string, raw: Entries): Snapshot
  {
    var item := NormaliseItem(raw);
    if !Exists(ClassConfig(s, ms, className, true), None) then
      ConfigState.Set(s, className, None, item.value, item.metadata)
    else
      var value := MergeValue(item.value, ClassConfig(s, ms, className, false));
      ConfigState.Set(s, className, None, value, InheritMetadata(item.metadata, MetadataView(s), className))
  }

  /** The items in order, each merged into what the previous ones left. */
  function MergeAll(items: seq<(string, Entries)>, s: Snapshot, ms: seq<Middleware>): Snapshot
  {
    if items == [] then s
    else MergeAll(items[1..], MergeItem(s, ms, items[0].0, items[0].1), ms)
  }

  /**
    One item exactly as the loop body is written: the metadata to inherit is
    looked up under the class name as given, not under its lowercased form.
  */
  function MergeItemAsWritten(s: Snapshot, ms: seq<Middleware>, className: string, raw: Entries): Snapshot
  {
    var item := NormaliseItem(raw);
    if !Exists(ClassConfig(s, ms, className, true), None) then
      ConfigState.Set(s, className, None, item.value, item.metadata)
    else
      var value := MergeValue(item.value, ClassConfig(s, ms, className, false));
      ConfigState.Set(s, className, None, value, InheritMetadataAsWritten(item.metadata, MetadataView(s), className))
  }

  /** For a class name that is already lower-case the two lookups coincide. */
  lemma MergeItemAsWrittenAgreesOnLowerCase(s: Snapshot, ms: seq<Middleware>, className: string, raw: Entries)
    requires Lower(className) == className
    ensures MergeItemAsWritten(s, ms, className, raw) == MergeItem(s, ms, className, raw)
  {
  }

  /**
    As written, merging `"Foo" => []` into a collection tracking metadata M
    for the stored class `foo` replaces M by the item's empty metadata; the
    corrected item keeps M.
  */
  lemma MergeItemAsWrittenDropsMetadata(stored: Value)
    requires Truthy(stored)
    ensures var s := Snapshot(map["foo" := Arr([])], map[], map["foo" := stored], true);
      && MetadataView(MergeItemAsWritten(s, [], "Foo", []))["foo"] == Arr([])
      && MetadataView(MergeItem(s, [], "Foo", []))["foo"] == stored
  {
    var s := Snapshot(map["foo" := Arr([])], map[], map["foo" := stored], true);
    assert Lower("Foo")[0] == 'f';
    assert Lower("Foo") == "foo";
    assert RawClassConfig(s, "Foo") == Arr([]);
    assert Exists(ClassConfig(s, [], "Foo", true), None);
    var item := NormaliseItem([]);
    assert item.metadata == Arr([]);
  }

  method Merge(mine: seq<(string, Entries)>, theirs: MemoryConfigCollection) returns (r: MemoryConfigCollection)
    modifies theirs
    ensures r == theirs
    ensures theirs.middlewares == old(theirs.middlewares)
    ensures theirs.State() == MergeAll(mine, old(theirs.State()), theirs.middlewares)
  {
    var i := 0;
    while i < |mine|
      invariant 0 <= i <= |mine|
      invariant theirs.middlewares == old(theirs.middlewares)
      invariant MergeAll(mine[i..], theirs.State(), theirs.middlewares)
             == MergeAll(mine, old(theirs.State()), theirs.middlewares)
    {
      var className := mine[i].0;
      ghost var s := theirs.State();
      assert mine[i..][1..] == mine[i + 1..];
      var item := NormaliseItem(mine[i].1);
      var value := item.value;
      var metadata := item.metadata;
      var present := theirs.Exists(className, None, true);
      if !present {
        theirs.Set(className, None, value, metadata);
      } else {
        var theirValue := theirs.Get(className, None, false);
        if value.Arr? && theirValue.Arr? {
          value := Arr(Priority.MergeArray(value.entries, theirValue.entries));
        }
        if !Truthy(metadata) {
          var theirMetadata := theirs.GetMetadata();
          var key := Lower(className);
          if IsSet(Lookup(theirMetadata, key)) {
            metadata := theirMetadata[key];
          }
        }
        assert metadata == InheritMetadata(item.metadata, MetadataView(s), className);
        theirs.Set(className, None, value, metadata);
      }
      assert theirs.State() == MergeItem(s, theirs.middlewares, className, mine[i].1);
      i := i + 1;
    }
    r := theirs;
  }

  /** A class the target lacks takes the item's value and metadata unchanged. */
  lemma MergeItemAbsent(s: Snapshot, ms: seq<Middleware>, className: string, raw: Entries)
    requires !Exists(ClassConfig(s, ms, className, true), None)
    ensures RawClassConfig(MergeItem(s, ms, className, raw), className) == NormaliseItem(raw).value
    ensures s.trackMetadata ==>
      MetadataView(MergeItem(s, ms, className, raw))[Lower(className)] == NormaliseItem(raw).metadata
  {
    var item := NormaliseItem(raw);
    SetThenRead(s, className, className, None, item.value, item.metadata);
    SetHistory(s, className, None, item.value, item.metadata);
  }

  /**
    A class the target has: arrays on both sides are deep-merged, anything
    else is replaced by the item's value; empty item metadata keeps the
    target's metadata for the class.
  */
  lemma MergeItemPresent(s: Snapshot, ms: seq<Middleware>, className: string, raw: Entries)
    requires Exists(ClassConfig(s, ms, className, true), None)
    ensures var item := NormaliseItem(raw);
      var their := RawClassConfig(s, className);
      var r := RawClassConfig(MergeItem(s, ms, className, raw), className);
      && (item.value.Arr? && their.Arr? ==> r == Arr(Priority.MergeArray(item.value.entries, their.entries)))
      && (!(item.value.Arr? && their.Arr?) ==> r == item.value)
    ensures var key := Lower(className);
      s.trackMetadata && !Truthy(NormaliseItem(raw).metadata) && IsSet(Lookup(s.metadata, key)) ==>
        MetadataView(MergeItem(s, ms, className, raw))[key] == s.metadata[key]
    ensures var key := Lower(className);
      s.trackMetadata && Truthy(NormaliseItem(raw).metadata) ==>
        MetadataView(MergeItem(s, ms, className, raw))[key] == NormaliseItem(raw).metadata
  {
    var item := NormaliseItem(raw);
    var value := MergeValue(item.value, ClassConfig(s, ms, className, false));
    var metadata := InheritMetadata(item.metadata, MetadataView(s), className);
    SetThenRead(s, className, className, None, value, metadata);
    SetHistory(s, className, None, value, metadata);
  }

  /** Merging an item for one class leaves every class spelled differently alone. */
  lemma MergeItemOtherClass(s: Snapshot, ms: seq<Middleware>, className: string, raw: Entries, other: string)
    requires Lower(other) != Lower(className)
    ensures RawClassConfig(MergeItem(s, ms, className, raw), other) == RawClassConfig(s, other)
  {
    var item := NormaliseItem(raw);
    SetOtherClass(s, className, other, None, item.value, item.metadata);
    SetOtherClass(s, className, other, None,
      MergeValue(item.value, ClassConfig(s, ms, className, false)),
      InheritMetadata(item.metadata, MetadataView(s), className));
  }

  /** A class none of the items names keeps its stored config through the whole merge. */
  lemma {:induction false} MergeAllOtherClass(items: seq<(string, Entries)>, s: Snapshot, ms: seq<Middleware>, other: string)
    requires forall i | 0 <= i < |items| :: Lower(items[i].0) != Lower(other)
    ensures RawClassConfig(MergeAll(items, s, ms), other) == RawClassConfig(s, other)
  {
    if items != [] {
      MergeItemOtherClass(s, ms, items[0].0, items[0].1, other);
      assert forall i | 0 <= i < |items[1..]| :: items[1..][i] == items[i + 1];
      MergeAllOtherClass(items[1..], MergeItem(s, ms, items[0].0, items[0].1), ms, other);
    }
  }

  /** Merging two batches in turn is merging their concatenation. */
  lemma {:induction false} MergeAllConcat(a: seq<(string, Entries)>, b: seq<(string, Entries)>, s: Snapshot, ms: seq<Middleware>)
    ensures MergeAll(a + b, s, ms) == MergeAll(b, MergeAll(a, s, ms), ms)
  {
    if a == [] {
      assert a + b == b;
    } else {
      assert (a + b)[1..] == a[1..] + b;
      MergeAllConcat(a[1..], b, MergeItem(s, ms, a[0].0, a[0].1), ms);
    }
  }

  /**
    `exists` runs the middleware: when the outermost middleware answers null
    for a class, the item replaces the stored config even if both are arrays.
  */
  lemma ExistsConsultsMiddleware(s: Snapshot, ms: seq<Middleware>, className: string, raw: Entries)
    requires ms != [] && forall c, next :: ms[0](c, next) == Null
    ensures RawClassConfig(MergeItem(s, ms, className, raw), className) == NormaliseItem(raw).value
  {
    MergeItemAbsent(s, ms, className, raw);
  }
}
