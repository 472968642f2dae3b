/**
  `Priority::merge` of the first generation
  (src/micmania1/config/MergeStrategy/Priority.php), over the legacy
  collection: `exists` is a plain key test and `get` the stored value.
*/
module LegacyPriorityMerge {
  import opened Php
  import opened ConfigState
  import opened Priority
  import LegacyPriority
  import opened LegacyCollection

  function MergeValue(value: Value, existing: Value): (r: Value)
    ensures !(value.Arr? && existing.Arr?) ==> r == value
  {
    if value.Arr? && existing.Arr? then Arr(LegacyPriority.MergeArray(value.entries, existing.entries))
    else value
  }

  /** One item, as the legacy loop body handles it (metadata lookup corrected as in the current one). */
  function MergeItem(s: Snapshot, key: string, raw: Entries): Snapshot
  {
    var item := NormaliseItem(raw);
    if !ExistsSpec(s, key) then
      ConfigState.Set(s, key, None, item.value, item.metadata)
    else
      ConfigState.Set(s, key, None, MergeValue(item.value, GetSpec(s, key)),
        InheritMetadata(item.metadata, MetadataView(s), key))
  }

  /**
    One item exactly as the legacy loop body is written: the metadata to
    inherit is looked up under the key as given.
  */
  function MergeItemAsWritten(s: Snapshot, key: string, raw: Entries): Snapshot
  {
    var item := NormaliseItem(raw);
    if !ExistsSpec(s, key) then
      ConfigState.Set(s, key, None, item.value, item.metadata)
    else
      ConfigState.Set(s, key, None, MergeValue(item.value, GetSpec(s, key)),
        InheritMetadataAsWritten(item.metadata, MetadataView(s), key))
  }

  /** For a key that is already lower-case the two lookups coincide. */
  lemma MergeItemAsWrittenAgreesOnLowerCase(s: Snapshot, key: string, raw: Entries)
    requires Lower(key) == key
    ensures MergeItemAsWritten(s, key, raw) == MergeItem(s, key, raw)
  {
  }

  /**
    As written, merging `"Foo" => []` into a collection tracking metadata M
    for the stored key `foo` replaces M by the item's empty metadata; the
    corrected item keeps M.
  */
  lemma MergeItemAsWrittenDropsMetadata(stored: Value)
    requires Truthy(stored)
    ensures var s := Snapshot(map["foo" := Arr([])], map[], map["foo" := stored], true);
      && MetadataView(MergeItemAsWritten(s, "Foo", []))["foo"] == Arr([])
      && MetadataView(MergeItem(s, "Foo", []))["foo"] == stored
  {
    var s := Snapshot(map["foo" := Arr([])], map[], map["foo" := stored], true);
    assert Lower("Foo")[0] == 'f';
    assert Lower("Foo") == "foo";
    assert ExistsSpec(s, "Foo");
    var item := NormaliseItem([]);
    assert item.metadata == Arr([]);
  }

  function MergeAll(items: seq<(string, Entries)>, s: Snapshot): Snapshot
  {
    if items == [] then s
    else MergeAll(items[1..], MergeItem(s, items[0].0, items[0].1))
  }

  method Merge(mine: seq<(string, Entries)>, theirs: ConfigCollection) returns (r: ConfigCollection)
    modifies theirs
    ensures r == theirs
    ensures theirs.State() == MergeAll(mine, old(theirs.State()))
  {
    var i := 0;
    while i < |mine|
      invariant 0 <= i <= |mine|
      invariant MergeAll(mine[i..], theirs.State()) == MergeAll(mine, old(theirs.State()))
    {
      var key := mine[i].0;
      ghost var s := theirs.State();
      assert mine[i..][1..] == mine[i + 1..];
      var item := NormaliseItem(mine[i].1);
      var value := item.value;
      var metadata := item.metadata;
      var present := theirs.Exists(key);
      if !present {
        theirs.Set(key, value, metadata);
      } else {
        var theirValue := theirs.Get(key);
        if value.Arr? && theirValue.Arr? {
          value := Arr(LegacyPriority.MergeArray(value.entries, theirValue.entries));
        }
        if !Truthy(metadata) {
          var theirMetadata := theirs.GetMetadata();
          var k := Lower(key);
          if IsSet(Lookup(theirMetadata, k)) {
            metadata := theirMetadata[k];
          }
        }
        assert metadata == InheritMetadata(item.metadata, MetadataView(s), key);
        theirs.Set(key, value, metadata);
      }
      assert theirs.State() == MergeItem(s, key, mine[i].1);
      i := i + 1;
    }
    r := theirs;
  }

  /**
    An absent key takes the item's value; a present one gets the legacy deep
    merge when both sides are arrays and the item's value otherwise.
  */
  lemma MergeItemValue(s: Snapshot, key: string, raw: Entries)
    ensures var item := NormaliseItem(raw);
      var r := GetSpec(MergeItem(s, key, raw), key);
      && (!ExistsSpec(s, key) ==> r == item.value)
      && (ExistsSpec(s, key) && item.value.Arr? && GetSpec(s, key).Arr? ==>
           r == Arr(LegacyPriority.MergeArray(item.value.entries, GetSpec(s, key).entries)))
      && (!(item.value.Arr? && GetSpec(s, key).Arr?) ==> r == item.value)
  {
    var item := NormaliseItem(raw);
    SetReplaces(s, key, key, item.value, item.metadata);
    SetReplaces(s, key, key, MergeValue(item.value, GetSpec(s, key)),
      InheritMetadata(item.metadata, MetadataView(s), key));
  }

  /** Empty item metadata keeps the metadata the collection holds for a present key. */
  lemma MergeItemInheritsMetadata(s: Snapshot, key: string, raw: Entries)
    requires s.trackMetadata && ExistsSpec(s, key)
    requires !Truthy(NormaliseItem(raw).metadata) && IsSet(Lookup(s.metadata, Lower(key)))
    ensures MetadataView(MergeItem(s, key, raw))[Lower(key)] == s.metadata[Lower(key)]
  {
  }

  /** A key none of the items names keeps its stored value. */
  lemma {:induction false} MergeAllOtherKey(items: seq<(string, Entries)>, s: Snapshot, other: string)
    requires forall i | 0 <= i < |items| :: Lower(items[i].0) != Lower(other)
    ensures GetSpec(MergeAll(items, s), other) == GetSpec(s, other)
  {
    if items != [] {
      var item := NormaliseItem(items[0].1);
      SetOtherClass(s, items[0].0, other, None, item.value, item.metadata);
      SetOtherClass(s, items[0].0, other, None, MergeValue(item.value, GetSpec(s, items[0].0)),
        InheritMetadata(item.metadata, MetadataView(s), items[0].0));
      assert forall i | 0 <= i < |items[1..]| :: items[1..][i] == items[i + 1];
      MergeAllOtherKey(items[1..], MergeItem(s, items[0].0, items[0].1), other);
    }
  }
}
