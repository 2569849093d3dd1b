/** The keyspace of a cluster node (src/db.c): the dictionaries and the slot index that every
    operation must keep in agreement with them. */
module SlotKeys {
  import opened AofBytes
  import opened ClusterBitmap
  import opened SlotIndex

  type Value = Bytes

  // ---------------------------------------------------------------------------
  // The iterator of getKeysInSlot, on values
  // ---------------------------------------------------------------------------

  /** `keys` were visited in order and `left` is what the iterator has still to see. */
  ghost predicate Visiting(hash: Hash, all: set<Bytes>, s: Slot, keys: seq<Bytes>, left: set<Bytes>) {
    && left <= From(IndexOf(hash, all), Prefix(s))
    && (forall i :: 0 <= i < |keys| ==> keys[i] in InSlot(hash, all, s) && Entry(hash, keys[i]) !in left)
    && (forall k :: k in InSlot(hash, all, s) ==> k in keys || Entry(hash, k) in left)
  }

  /** Keys come out in ascending order, and before every key not yet seen. */
  ghost predicate Ascending(hash: Hash, all: set<Bytes>, s: Slot, keys: seq<Bytes>) {
    && (forall i, j :: 0 <= i < j < |keys| ==> Le(keys[i], keys[j]) && keys[i] != keys[j])
    && (forall i, k :: 0 <= i < |keys| && k in InSlot(hash, all, s) && k !in keys ==> Le(keys[i], k))
  }

  lemma VisitingStarts(hash: Hash, all: set<Bytes>, s: Slot)
    ensures Visiting(hash, all, s, [], From(IndexOf(hash, all), Prefix(s)))
  {
    forall k | k in InSlot(hash, all, s) ensures Entry(hash, k) in From(IndexOf(hash, all), Prefix(s)) {
      EntryFrom(hash, all, s, k);
    }
  }

  lemma VisitNext(hash: Hash, all: set<Bytes>, s: Slot, keys: seq<Bytes>, left: set<Bytes>, x: Bytes)
    requires Visiting(hash, all, s, keys, left) && IsLeast(left, x) && |x| >= 2 && x[..2] == Prefix(s)
    ensures Visiting(hash, all, s, keys + [x[2..]], left - {x})
    ensures x[2..] in InSlot(hash, all, s) && x[2..] !in keys
  {
    EntryOfSlot(hash, all, s, x);
    forall k | k in InSlot(hash, all, s) ensures k in keys + [x[2..]] || Entry(hash, k) in left - {x} {
      if Entry(hash, k) == x { EntryTail(hash, k); }
    }
  }

  lemma LeastKeyFirst(hash: Hash, all: set<Bytes>, s: Slot, keys: seq<Bytes>, left: set<Bytes>, x: Bytes, k: Bytes)
    requires Visiting(hash, all, s, keys, left) && IsLeast(left, x) && |x| >= 2 && x[..2] == Prefix(s)
    requires k in InSlot(hash, all, s) && k !in keys
    ensures Le(x[2..], k)
  {
    assert Entry(hash, k) in left;
    EntryOfSlot(hash, all, s, x);
    LePrefix(Prefix(s), x[2..], k);
  }

  lemma AscendNext(hash: Hash, all: set<Bytes>, s: Slot, keys: seq<Bytes>, left: set<Bytes>, x: Bytes)
    requires Visiting(hash, all, s, keys, left) && Ascending(hash, all, s, keys)
    requires IsLeast(left, x) && |x| >= 2 && x[..2] == Prefix(s)
    ensures Ascending(hash, all, s, keys + [x[2..]])
  {
    VisitNext(hash, all, s, keys, left, x);
    var y := x[2..];
    var more := keys + [y];
    forall i, k | 0 <= i < |more| && k in InSlot(hash, all, s) && k !in more ensures Le(more[i], k) {
      assert forall q :: q in keys ==> q in more;
      if i == |keys| { LeastKeyFirst(hash, all, s, keys, left, x, k); }
    }
  }

  /** When the smallest element left is of another slot, the slot is exhausted. */
  lemma VisitStops(hash: Hash, all: set<Bytes>, s: Slot, keys: seq<Bytes>, left: set<Bytes>, x: Bytes)
    requires Visiting(hash, all, s, keys, left)
    requires left == {} || (IsLeast(left, x) && |x| >= 2 && x[..2] != Prefix(s))
    ensures forall k :: k in InSlot(hash, all, s) ==> k in keys
  {
    forall k | k in InSlot(hash, all, s) ensures k in keys {
      if k !in keys { LeastIsInSlot(hash, all, s, left, x, k); }
    }
  }

  lemma {:induction false} SizeOfDistinct(keys: seq<Bytes>, all: set<Bytes>)
    requires forall i, j :: 0 <= i < j < |keys| ==> keys[i] != keys[j]
    requires forall i :: 0 <= i < |keys| ==> keys[i] in all
    ensures |keys| <= |all| && ((forall k :: k in all ==> k in keys) ==> |keys| == |all|)
    decreases |keys|
  {
    if keys == [] {
      assert (forall k :: k in all ==> k in keys) ==> all == {};
    } else {
      var n := |keys| - 1;
      var rest := all - {keys[n]};
      SizeOfDistinct(keys[..n], rest);
      assert all == rest + {keys[n]};
      if forall k :: k in all ==> k in keys {
        forall k | k in rest ensures k in keys[..n] {
          var i :| 0 <= i < |keys| && keys[i] == k;
          assert keys[..n][i] == k;
        }
      }
    }
  }

  // ---------------------------------------------------------------------------
  // The keyspace
  // ---------------------------------------------------------------------------

  class Keyspace {
    var dict: map<Bytes, Value>
    var expires: map<Bytes, int>
    const hash: Hash
    const counts: array<int>
    var index: set<Bytes>

    ghost predicate Valid()
      reads this, counts
    {
      expires.Keys <= dict.Keys && Agrees(hash, dict.Keys, index, counts[..])
    }

    constructor (hash: Hash)
      ensures Valid() && fresh(counts) && this.hash == hash && dict == map[]
    {
      dict, expires, index := map[], map[], {};
      this.hash := hash;
      counts := new int[CLUSTER_SLOTS](_ => 0);
      new;
      forall s | 0 <= s < CLUSTER_SLOTS ensures InSlot(hash, dict.Keys, s) == {} {}
    }

    /** slotToKeyUpdateKey. */
    method SlotToKeyUpdateKey(key: Bytes, add: bool)
      requires counts.Length == CLUSTER_SLOTS
      modifies `index, counts
      ensures counts[..] == old(counts[..])[hash(key) := old(counts[hash(key)]) + if add then 1 else -1]
      ensures index == if add then old(index) + {Entry(hash, key)} else old(index) - {Entry(hash, key)}
    {
      var slot := hash(key);
      counts[slot] := counts[slot] + if add then 1 else -1;
      var indexed := [(slot / 256) as byte, (slot % 256) as byte] + key;
      if add {
        index := index + {indexed};
      } else {
        index := index - {indexed};
      }
    }

    /** dbAdd; the key must be new. */
    method DbAdd(key: Bytes, value: Value)
      requires Valid() && key !in dict
      modifies `dict, `index, counts
      ensures Valid() && dict == old(dict)[key := value]
    {
      AddAgrees(hash, dict.Keys, index, counts[..], key);
      dict := dict[key := value];
      assert dict.Keys == old(dict).Keys + {key};
      SlotToKeyUpdateKey(key, true);
    }

    /** dbOverwrite: the index does not change. */
    method DbOverwrite(key: Bytes, value: Value)
      requires Valid() && key in dict
      modifies `dict
      ensures Valid() && dict == old(dict)[key := value]
    {
      dict := dict[key := value];
      assert dict.Keys == old(dict).Keys;
    }

    /** dbSyncDelete. */
    method DbDelete(key: Bytes) returns (deleted: bool)
      requires Valid()
      modifies `dict, `expires, `index, counts
      ensures Valid() && dict == old(dict) - {key} && expires == old(expires) - {key}
      ensures deleted == (key in old(dict))
    {
      assert |expires| == 0 ==> expires - {key} == expires;
      if |expires| > 0 { expires := expires - {key}; }
      if key !in dict {
        assert dict - {key} == dict;
        return false;
      }
      RemoveAgrees(hash, dict.Keys, index, counts[..], key);
      dict := dict - {key};
      assert dict.Keys == old(dict).Keys - {key};
      SlotToKeyUpdateKey(key, false);
      return true;
    }

    /** setKey: the key is written and becomes persistent. */
    method SetKey(key: Bytes, value: Value)
      requires Valid()
      modifies `dict, `expires, `index, counts
      ensures Valid() && dict == old(dict)[key := value] && expires == old(expires) - {key}
    {
      if key !in dict {
        DbAdd(key, value);
      } else {
        DbOverwrite(key, value);
      }
      expires := expires - {key};
    }

    method SetExpire(key: Bytes, when: int)
      requires Valid() && key in dict
      modifies `expires
      ensures Valid() && expires == old(expires)[key := when]
    {
      expires := expires[key := when];
    }

    /** renameGenericCommand: whether it moved the key. */
    method Rename(from: Bytes, to: Bytes, nx: bool) returns (moved: bool)
      requires Valid()
      modifies `dict, `expires, `index, counts
      ensures Valid()
      ensures moved == (from in old(dict) && from != to && !(nx && to in old(dict)))
      ensures !moved ==> dict == old(dict) && expires == old(expires)
      ensures moved ==> dict == (old(dict) - {from})[to := old(dict)[from]]
      ensures moved ==> expires == (if from in old(expires) && old(expires)[from] != -1
                                    then (old(expires) - {from})[to := old(expires)[from]] else old(expires) - {from, to})
    {
      if from !in dict || from == to { return false; }
      RenamedDict(dict, from, to);
      RenamedExpires(expires, from, to);
      assert to !in dict ==> dict - {to} == dict && expires - {to} == expires;
      var value := dict[from];
      var expire := if from in expires then expires[from] else -1;
      if to in dict {
        if nx { return false; }
        var _ := DbDelete(to);
      }
      DbAdd(to, value);
      if expire != -1 { SetExpire(to, expire); }
      var _ := DbDelete(from);
      return true;
    }

    /** emptyDb with slotToKeyFlush. */
    method EmptyDb() returns (removed: nat)
      requires counts.Length == CLUSTER_SLOTS
      modifies `dict, `expires, `index, counts
      ensures Valid() && dict == map[] && removed == |old(dict)|
    {
      removed := |dict|;
      dict, expires, index := map[], map[], {};
      forall i | 0 <= i < counts.Length { counts[i] := 0; }
      forall s | 0 <= s < CLUSTER_SLOTS ensures InSlot(hash, dict.Keys, s) == {} {}
    }

    /** countKeysInSlot. */
    method CountKeysInSlot(s: Slot) returns (n: int)
      requires Valid()
      ensures n == |InSlot(hash, dict.Keys, s)|
    {
      assert counts[..][s] == counts[s];
      n := counts[s];
    }

    /** raxNext on what the iterator has left. */
    static method Least(left: set<Bytes>) returns (x: Bytes)
      requires left != {}
      ensures IsLeast(left, x)
    {
      ghost var y := HasLeast(left);
      x :| x in left && forall z :: z in left ==> Le(x, z);
    }

    /** getKeysInSlot: the first `count` keys of the slot in order, all of them if there are
        fewer. */
    method GetKeysInSlot(s: Slot, count: nat) returns (keys: seq<Bytes>)
      requires Valid()
      ensures forall i :: 0 <= i < |keys| ==> keys[i] in InSlot(hash, dict.Keys, s)
      ensures Ascending(hash, dict.Keys, s, keys)
      ensures |keys| == if count < |InSlot(hash, dict.Keys, s)| then count else |InSlot(hash, dict.Keys, s)|
    {
      keys := [];
      var left := From(index, Prefix(s));
      VisitingStarts(hash, dict.Keys, s);
      while |keys| < count && left != {}
        invariant |keys| <= count
        invariant Visiting(hash, dict.Keys, s, keys, left) && Ascending(hash, dict.Keys, s, keys)
        decreases |left|
      {
        var x := Least(left);
        EntryOfSlot(hash, dict.Keys, s, x);
        if x[..2] != Prefix(s) {
          VisitStops(hash, dict.Keys, s, keys, left, x);
          break;
        }
        VisitNext(hash, dict.Keys, s, keys, left, x);
        AscendNext(hash, dict.Keys, s, keys, left, x);
        keys := keys + [x[2..]];
        left := left - {x};
      }
      if left == {} { VisitStops(hash, dict.Keys, s, keys, left, []); }
      SizeOfDistinct(keys, InSlot(hash, dict.Keys, s));
    }

    /** delKeysInSlot: ends, removes exactly the keys of the slot and counts them. */
    method DelKeysInSlot(s: Slot) returns (removed: nat)
      requires Valid()
      modifies `dict, `expires, `index, counts
      ensures Valid()
      ensures dict == old(dict) - InSlot(hash, old(dict).Keys, s)
      ensures expires == old(expires) - InSlot(hash, old(dict).Keys, s)
      ensures removed == |InSlot(hash, old(dict).Keys, s)|
    {
      removed := 0;
      ghost var gone: set<Bytes> := {};
      assert counts[..][s] == counts[s];
      assert dict - {} == dict && expires - {} == expires;
      while counts[s] != 0
        invariant Valid() && counts[s] == counts[..][s]
        invariant gone <= InSlot(hash, old(dict).Keys, s) && dict == old(dict) - gone && expires == old(expires) - gone
        invariant removed + |InSlot(hash, dict.Keys, s)| == |InSlot(hash, old(dict).Keys, s)|
        decreases |InSlot(hash, dict.Keys, s)|
      {
        var key := FirstOfSlot(s);
        assert dict - {key} == old(dict) - (gone + {key}) && expires - {key} == old(expires) - (gone + {key});
        InSlotAdd(hash, dict.Keys - {key}, key, s);
        assert dict.Keys - {key} + {key} == dict.Keys;
        var _ := DbDelete(key);
        gone := gone + {key};
        removed := removed + 1;
        assert counts[..][s] == counts[s];
      }
      NoneLeft(hash, old(dict), dict, gone, s);
    }

    /** The key behind the first entry at or after the slot's prefix. */
    method FirstOfSlot(s: Slot) returns (key: Bytes)
      requires Valid() && InSlot(hash, dict.Keys, s) != {}
      ensures key in InSlot(hash, dict.Keys, s)
    {
      ghost var k :| k in InSlot(hash, dict.Keys, s);
      EntryFrom(hash, dict.Keys, s, k);
      var x := Least(From(index, Prefix(s)));
      LeastIsInSlot(hash, dict.Keys, s, From(index, Prefix(s)), x, k);
      EntryOfSlot(hash, dict.Keys, s, x);
      key := x[2..];
    }
  }

  lemma RenamedDict(dict: map<Bytes, Value>, from: Bytes, to: Bytes)
    requires from in dict && from != to
    ensures (dict - {to})[to := dict[from]] - {from} == (dict - {from})[to := dict[from]]
  {}

  lemma RenamedExpires(expires: map<Bytes, int>, from: Bytes, to: Bytes)
    requires from != to
    ensures expires - {to} - {from} == expires - {from, to}
    ensures from in expires ==> (expires - {to})[to := expires[from]] - {from} == (expires - {from})[to := expires[from]]
  {}

  lemma NoneLeft(hash: Hash, before: map<Bytes, Value>, after: map<Bytes, Value>, gone: set<Bytes>, s: Slot)
    requires gone <= InSlot(hash, before.Keys, s) && after == before - gone && InSlot(hash, after.Keys, s) == {}
    ensures gone == InSlot(hash, before.Keys, s)
  {
    var all := InSlot(hash, before.Keys, s);
    assert all - gone == InSlot(hash, after.Keys, s);
    assert all == (all - gone) + gone;
  }
}
