/** The insertion-ordered `defaultdict(list)` from a string key to a list
    of ids that the helpers build by appending (courses by semester,
    timeslots by day), with what appending does to it. */
module ListDict {

  /** One entry of the insertion-ordered dictionary from a key to a list of
      ids. */
  datatype Entry = Entry(key: string, ids: seq<int>)

  /** `d.get(key, [])` for the dictionary `idx`. */
  function Lookup(idx: seq<Entry>, key: string): seq<int> {
    if idx == [] then []
    else if idx[0].key == key then idx[0].ids
    else Lookup(idx[1..], key)
  }

  /** The dictionary's keys in insertion order. */
  function Keys(idx: seq<Entry>): (ks: seq<string>)
    ensures |ks| == |idx| && forall k :: 0 <= k < |idx| ==> ks[k] == idx[k].key
  {
    if idx == [] then [] else [idx[0].key] + Keys(idx[1..])
  }

  /** A dictionary holds each key once. */
  predicate KeysDistinct(idx: seq<Entry>) {
    forall i, j :: 0 <= i < j < |idx| ==> idx[i].key != idx[j].key
  }

  /** `d[key].append(id)` on a `defaultdict(list)`: extend the entry of
      `key`, or add a new entry at the end. */
  function AppendId(idx: seq<Entry>, key: string, id: int): seq<Entry> {
    if idx == [] then [Entry(key, [id])]
    else if idx[0].key == key then [Entry(key, idx[0].ids + [id])] + idx[1..]
    else [idx[0]] + AppendId(idx[1..], key, id)
  }

  /** Appending extends exactly the entry of `key` by `id`. */
  lemma {:induction false} AppendIdLookup(idx: seq<Entry>, key: string, id: int, other: string)
    ensures Lookup(AppendId(idx, key, id), other) == Lookup(idx, other) + (if other == key then [id] else [])
  {
    if idx != [] {
      AppendIdLookup(idx[1..], key, id, other);
    }
  }

  /** Appending adds `key` as the last key when it is new. */
  lemma {:induction false} AppendIdKeys(idx: seq<Entry>, key: string, id: int)
    ensures Keys(AppendId(idx, key, id)) == if key in Keys(idx) then Keys(idx) else Keys(idx) + [key]
  {
    if idx != [] {
      AppendIdKeys(idx[1..], key, id);
      if idx[0].key != key {
        assert Keys(AppendId(idx, key, id)) == [idx[0].key] + Keys(AppendId(idx[1..], key, id));
        assert key in Keys(idx) <==> key in Keys(idx[1..]);
      } else {
        assert Keys(AppendId(idx, key, id)) == [key] + Keys(idx[1..]);
      }
    }
  }

  /** Appending keeps the keys distinct. */
  lemma AppendIdDistinct(idx: seq<Entry>, key: string, id: int)
    requires KeysDistinct(idx)
    ensures KeysDistinct(AppendId(idx, key, id))
  {
    var r := AppendId(idx, key, id);
    AppendIdKeys(idx, key, id);
    var ks := Keys(idx);
    forall i, j | 0 <= i < j < |r| ensures r[i].key != r[j].key {
      assert Keys(r)[i] == r[i].key && Keys(r)[j] == r[j].key;
      if j == |idx| {
        assert key !in ks;
        assert Keys(r)[i] == ks[i];
      }
    }
  }

  /** Appending keeps every entry non-empty. */
  lemma {:induction false} AppendIdNonEmpty(idx: seq<Entry>, key: string, id: int)
    requires forall k :: 0 <= k < |idx| ==> idx[k].ids != []
    ensures forall k :: 0 <= k < |AppendId(idx, key, id)| ==> AppendId(idx, key, id)[k].ids != []
  {
    if idx != [] && idx[0].key != key {
      assert forall k :: 0 <= k < |idx[1..]| ==> idx[1..][k] == idx[k + 1];
      AppendIdNonEmpty(idx[1..], key, id);
      var r := AppendId(idx, key, id);
      assert forall k :: 1 <= k < |r| ==> r[k] == AppendId(idx[1..], key, id)[k - 1];
    }
  }


  /** A key of a duplicate-free dictionary finds its own entry. */
  lemma {:induction false} LookupAt(idx: seq<Entry>, k: nat)
    requires KeysDistinct(idx) && k < |idx|
    ensures Lookup(idx, idx[k].key) == idx[k].ids
  {
    if k > 0 {
      assert KeysDistinct(idx[1..]);
      assert idx[1..][k - 1] == idx[k];
      LookupAt(idx[1..], k - 1);
    }
  }

  lemma {:induction false} LookupEmpty(idx: seq<Entry>, key: string)
    requires forall k :: 0 <= k < |idx| ==> idx[k].ids == []
    ensures Lookup(idx, key) == []
  {
    if idx != [] {
      assert forall k :: 0 <= k < |idx[1..]| ==> idx[1..][k] == idx[k + 1];
      LookupEmpty(idx[1..], key);
    }
  }
}
