/**
 The insertion-ordered map the executor collects fields into: entries are
 found by key through a hash map and chained in the order in which their keys
 first came in.
 */
module LinkedMap {
  import opened Wrappers

  class LinkedMapEntry<V> {
    var value: V
    var next: LinkedMapEntry?<V>
    // its place in the chain
    ghost var position: nat

    constructor (value: V, ghost position: nat)
      ensures this.value == value && next == null && this.position == position
    {
      this.value, next, this.position := value, null, position;
    }
  }

  class LinkedMap<K(==), V> {
    var valuesByKey: map<K, LinkedMapEntry<V>>
    var first: LinkedMapEntry?<V>
    var last: LinkedMapEntry?<V>
    // the chain, its keys and values in order, and the objects it is made of
    ghost var entries: seq<LinkedMapEntry<V>>
    ghost var keys: seq<K>
    ghost var values: seq<V>
    ghost var repr: set<LinkedMapEntry<V>>

    /** The entries are chained in order, and hold the values. */
    ghost predicate Chained()
      reads this, repr
    {
      && |entries| == |values|
      && first == (if entries == [] then null else entries[0])
      && last == (if entries == [] then null else entries[|entries| - 1])
      && (forall i :: 0 <= i < |entries| ==>
            entries[i] in repr && entries[i].position == i && entries[i].value == values[i])
      && (forall i {:trigger entries[i].next} :: 0 <= i < |entries| ==>
            entries[i].next == if i + 1 < |entries| then entries[i + 1] else null)
    }

    /** The hash map finds the entry of each key, and of nothing else. */
    ghost predicate Indexed()
      reads this
    {
      && |entries| == |keys|
      && (forall i :: 0 <= i < |keys| ==> keys[i] in valuesByKey && valuesByKey[keys[i]] == entries[i])
      && (forall k :: k in valuesByKey ==> k in keys)
    }

    ghost predicate Valid()
      reads this, repr
    {
      Chained() && Indexed()
    }

    /** Keys are unique: the map would otherwise hold two entries for one key. */
    lemma KeysAreUnique(i: int, j: int)
      requires Valid() && 0 <= i < |keys| && 0 <= j < |keys| && keys[i] == keys[j]
      ensures i == j
    {
      assert entries[i].position == i && entries[j].position == j;
    }

    /** Where in the chain a key is. */
    lemma Find(key: K) returns (index: int)
      requires Valid()
      ensures key in valuesByKey <==> key in keys
      ensures key in keys ==> 0 <= index < |keys| && keys[index] == key && valuesByKey[key] == entries[index]
    {
      index := -1;
      if key in keys {
        index :| 0 <= index < |keys| && keys[index] == key;
        assert entries[index].position == index;
      }
    }

    constructor ()
      ensures Valid() && fresh(this) && keys == [] && values == [] && repr == {}
    {
      valuesByKey, first, last := map[], null, null;
      entries, keys, values, repr := [], [], [], {};
    }

    /** The value stored under a key; `index` says where in the chain it is. */
    method Get(key: K) returns (r: Option<V>, ghost index: int)
      requires Valid()
      ensures r.Some? <==> key in keys
      ensures r.Some? ==> 0 <= index < |values| && keys[index] == key && r == Some(values[index])
    {
      index := Find(key);
      if key !in valuesByKey {
        return None, -1;
      }
      var entry := valuesByKey[key];
      r := Some(entry.value);
    }

    /** Replaces the value under a key already present, and otherwise appends an entry to the chain. */
    method Set(key: K, value: V) returns (ghost index: int)
      requires Valid()
      modifies this, repr
      ensures Valid() && repr >= old(repr) && fresh(repr - old(repr))
      ensures key in old(keys) ==>
                && 0 <= index < |old(values)| && old(keys)[index] == key
                && keys == old(keys) && values == old(values)[index := value]
      ensures key !in old(keys) ==> keys == old(keys) + [key] && values == old(values) + [value]
    {
      index := Find(key);
      if key in valuesByKey {
        var entry := valuesByKey[key];
        entry.value := value;
        values := values[index := value];
      } else {
        Append(key, value);
      }
    }

    method Append(key: K, value: V)
      requires Valid() && key !in valuesByKey
      modifies this, repr
      ensures Valid() && repr >= old(repr) && fresh(repr - old(repr))
      ensures keys == old(keys) + [key] && values == old(values) + [value]
    {
      var entry := new LinkedMapEntry(value, |entries|);
      Link(entry);
      valuesByKey := valuesByKey[key := entry];
      keys := keys + [key];
    }

    /** Puts an entry at the end of the chain. */
    method Link(entry: LinkedMapEntry<V>)
      requires Chained() && entry !in repr && entry.next == null && entry.position == |entries|
      modifies this`first, this`last, this`entries, this`values, this`repr, repr`next
      ensures Chained() && repr == old(repr) + {entry}
      ensures entries == old(entries) + [entry] && values == old(values) + [entry.value]
    {
      if first == null {
        first := entry;
      } else {
        last.next := entry;
      }
      last := entry;
      entries, values, repr := entries + [entry], values + [entry.value], repr + {entry};
    }
  }
}
