/** The slot-to-keys index of src/db.c on values: an ordered set of byte strings, each a slot
    number in two bytes followed by a key, and a counter per slot. */
module SlotIndex {
  import opened AofBytes
  import opened ClusterBitmap

  /** keyHashSlot, any function from keys to slots. */
  type Hash = Bytes -> Slot

  function Prefix(s: Slot): Bytes {
    [(s / 256) as byte, (s % 256) as byte]
  }

  function Entry(hash: Hash, key: Bytes): Bytes {
    Prefix(hash(key)) + key
  }

  /** The order of the radix tree. */
  predicate Le(a: Bytes, b: Bytes)
    decreases |a|
  {
    a == [] || (b != [] && (a[0] < b[0] || (a[0] == b[0] && Le(a[1..], b[1..]))))
  }

  lemma {:induction false} LeReflexive(a: Bytes)
    ensures Le(a, a)
    decreases |a|
  {
    if a != [] { LeReflexive(a[1..]); }
  }

  lemma {:induction false} LeTransitive(a: Bytes, b: Bytes, c: Bytes)
    requires Le(a, b) && Le(b, c)
    ensures Le(a, c)
    decreases |a|
  {
    if a != [] && a[0] == b[0] == c[0] { LeTransitive(a[1..], b[1..], c[1..]); }
  }

  lemma {:induction false} LeTotal(a: Bytes, b: Bytes)
    ensures Le(a, b) || Le(b, a)
    decreases |a|
  {
    if a != [] && b != [] && a[0] == b[0] { LeTotal(a[1..], b[1..]); }
  }

  lemma {:induction false} LeAntisymmetric(a: Bytes, b: Bytes)
    requires Le(a, b) && Le(b, a)
    ensures a == b
    decreases |a|
  {
    if a != [] {
      LeAntisymmetric(a[1..], b[1..]);
      assert a == [a[0]] + a[1..] && b == [b[0]] + b[1..];
    }
  }

  /** Below a common prefix the order is that of what follows. */
  lemma LePrefix(p: Bytes, a: Bytes, b: Bytes)
    requires |p| == 2
    ensures Le(p + a, p + b) <==> Le(a, b)
    ensures Le(p, p + a)
  {
    assert (p + a)[1..][1..] == a && (p + b)[1..][1..] == b;
    assert Le((p + a)[1..], (p + b)[1..]) <==> Le(a, b);
    assert p[1..][1..] == [] && Le(p[1..], (p + a)[1..]);
  }

  ghost predicate DiffersAt(a: Bytes, b: Bytes, i: nat) {
    i < |a| && i < |b| && a[..i] == b[..i] && a[i] < b[i]
  }

  lemma GreaterFirst(a: Bytes, b: Bytes, i: nat)
    requires a != [] && b != [] && a[0] > b[0]
    ensures !DiffersAt(a, b, i)
  {
    if 0 < i < |a| && i < |b| { assert a[..i][0] == a[0] && b[..i][0] == b[0]; }
  }

  /** It is the order of memcmp, where a prefix comes first. */
  lemma {:induction false} LeIsLexicographic(a: Bytes, b: Bytes)
    ensures Le(a, b) <==> a <= b || exists i: nat :: DiffersAt(a, b, i)
    decreases |a|
  {
    if a != [] && b != [] {
      LeIsLexicographic(a[1..], b[1..]);
      assert a == [a[0]] + a[1..] && b == [b[0]] + b[1..];
      if a[0] < b[0] {
        assert DiffersAt(a, b, 0);
      } else if a[0] == b[0] {
        if i: nat :| DiffersAt(a[1..], b[1..], i) {
          assert a[..i + 1] == [a[0]] + a[1..][..i] && b[..i + 1] == [b[0]] + b[1..][..i];
          assert DiffersAt(a, b, i + 1);
        }
        if i: nat :| DiffersAt(a, b, i) {
          assert i > 0;
          assert a[1..][..i - 1] == a[..i][1..] && b[1..][..i - 1] == b[..i][1..];
          assert DiffersAt(a[1..], b[1..], i - 1);
        }
      } else {
        forall i: nat ensures !DiffersAt(a, b, i) { GreaterFirst(a, b, i); }
      }
    }
  }

  /** Entries lie in the order of their slots. */
  lemma PrefixKeepsOrder(s: Slot, t: Slot, a: Bytes, b: Bytes)
    requires s < t
    ensures Le(Prefix(s) + a, Prefix(t) + b) && !Le(Prefix(t) + b, Prefix(s) + a)
  {
    var x, y := Prefix(s) + a, Prefix(t) + b;
    assert x[1..][0] == Prefix(s)[1] && y[1..][0] == Prefix(t)[1];
  }

  /** The smallest element. */
  ghost predicate IsLeast(s: set<Bytes>, x: Bytes) {
    x in s && forall y :: y in s ==> Le(x, y)
  }

  lemma {:induction false} HasLeast(s: set<Bytes>) returns (x: Bytes)
    requires s != {}
    ensures IsLeast(s, x)
    decreases |s|
  {
    var y :| y in s;
    LeReflexive(y);
    if s == {y} {
      x := y;
    } else {
      var rest := s - {y};
      assert s == rest + {y};
      assert rest != {};
      var z := HasLeast(rest);
      LeTotal(y, z);
      if Le(y, z) {
        x := y;
        forall w | w in s ensures Le(x, w) {
          if w != y { LeTransitive(y, z, w); }
        }
      } else {
        x := z;
      }
    }
  }

  /** raxSeek ">=" followed by raxNext: the smallest element not below `p`. */
  function From(s: set<Bytes>, p: Bytes): set<Bytes> {
    set x | x in s && Le(p, x)
  }

  // ---------------------------------------------------------------------------
  // Agreement with the dictionary
  // ---------------------------------------------------------------------------

  function IndexOf(hash: Hash, keys: set<Bytes>): set<Bytes> {
    set k | k in keys :: Entry(hash, k)
  }

  function InSlot(hash: Hash, keys: set<Bytes>, s: nat): set<Bytes> {
    set k | k in keys && hash(k) == s
  }

  ghost predicate CountsAgree(hash: Hash, keys: set<Bytes>, counts: seq<int>) {
    |counts| == CLUSTER_SLOTS && forall s :: 0 <= s < CLUSTER_SLOTS ==> counts[s] == |InSlot(hash, keys, s)|
  }

  /** The index holds exactly the stored keys under their slots, and the counters count them. */
  ghost predicate Agrees(hash: Hash, keys: set<Bytes>, index: set<Bytes>, counts: seq<int>) {
    index == IndexOf(hash, keys) && CountsAgree(hash, keys, counts)
  }

  lemma EntryTail(hash: Hash, k: Bytes)
    ensures Entry(hash, k)[..2] == Prefix(hash(k)) && Entry(hash, k)[2..] == k
  {}

  lemma EntryInjective(hash: Hash, a: Bytes, b: Bytes)
    requires Entry(hash, a) == Entry(hash, b)
    ensures a == b
  {
    EntryTail(hash, a);
    EntryTail(hash, b);
  }

  lemma PrefixInjective(s: Slot, t: Slot)
    requires Prefix(s) == Prefix(t)
    ensures s == t
  {
    assert Prefix(s)[0] == Prefix(t)[0] && Prefix(s)[1] == Prefix(t)[1];
  }

  lemma InSlotAdd(hash: Hash, keys: set<Bytes>, k: Bytes, s: nat)
    requires k !in keys
    ensures |InSlot(hash, keys + {k}, s)| == |InSlot(hash, keys, s)| + if hash(k) == s then 1 else 0
  {
    assert InSlot(hash, keys + {k}, s) == if hash(k) == s then InSlot(hash, keys, s) + {k} else InSlot(hash, keys, s);
  }

  lemma AddAgrees(hash: Hash, keys: set<Bytes>, index: set<Bytes>, counts: seq<int>, k: Bytes)
    requires Agrees(hash, keys, index, counts) && k !in keys
    ensures Agrees(hash, keys + {k}, index + {Entry(hash, k)}, counts[hash(k) := counts[hash(k)] + 1])
  {
    assert IndexOf(hash, keys + {k}) == index + {Entry(hash, k)};
    forall s | 0 <= s < CLUSTER_SLOTS
      ensures counts[hash(k) := counts[hash(k)] + 1][s] == |InSlot(hash, keys + {k}, s)|
    {
      InSlotAdd(hash, keys, k, s);
    }
  }

  lemma RemoveAgrees(hash: Hash, keys: set<Bytes>, index: set<Bytes>, counts: seq<int>, k: Bytes)
    requires Agrees(hash, keys, index, counts) && k in keys
    ensures Agrees(hash, keys - {k}, index - {Entry(hash, k)}, counts[hash(k) := counts[hash(k)] - 1])
  {
    var rest := keys - {k};
    assert keys == rest + {k};
    assert IndexOf(hash, rest) == index - {Entry(hash, k)} by {
      forall a | a in rest ensures Entry(hash, a) != Entry(hash, k) {
        if Entry(hash, a) == Entry(hash, k) { EntryInjective(hash, a, k); }
      }
    }
    forall s | 0 <= s < CLUSTER_SLOTS
      ensures counts[hash(k) := counts[hash(k)] - 1][s] == |InSlot(hash, rest, s)|
    {
      InSlotAdd(hash, rest, k, s);
    }
  }

  // ---------------------------------------------------------------------------
  // Finding the keys of a slot
  // ---------------------------------------------------------------------------

  lemma BetweenPrefix(p: Bytes, x: Bytes, a: Bytes)
    requires |p| == 2 && |x| >= 2 && Le(p, x) && Le(x, p + a)
    ensures x[..2] == p
  {
    var y := p + a;
    assert y[0] == p[0] && y[1..][0] == p[1] && p[1..][0] == p[1] && x[1..][0] == x[1];
    assert x[0] == p[0];
    assert Le(p[1..], x[1..]) && Le(x[1..], y[1..]);
  }

  /** If `left` still holds an entry of slot `s`, its smallest element is one too. */
  lemma LeastIsInSlot(hash: Hash, keys: set<Bytes>, s: Slot, left: set<Bytes>, x: Bytes, k: Bytes)
    requires left <= From(IndexOf(hash, keys), Prefix(s)) && IsLeast(left, x)
    requires k in keys && hash(k) == s && Entry(hash, k) in left
    ensures x[..2] == Prefix(s)
  {
    var a :| a in keys && x == Entry(hash, a);
    BetweenPrefix(Prefix(s), x, k);
  }

  lemma EntryOfSlot(hash: Hash, keys: set<Bytes>, s: Slot, x: Bytes)
    requires x in IndexOf(hash, keys)
    ensures |x| >= 2 && x[2..] in keys && x == Entry(hash, x[2..])
    ensures x[..2] == Prefix(s) <==> hash(x[2..]) == s
  {
    var a :| a in keys && x == Entry(hash, a);
    EntryTail(hash, a);
    if x[..2] == Prefix(s) { PrefixInjective(hash(a), s); }
  }

  lemma EntryFrom(hash: Hash, keys: set<Bytes>, s: Slot, k: Bytes)
    requires k in keys && hash(k) == s
    ensures Entry(hash, k) in From(IndexOf(hash, keys), Prefix(s))
  {
    LePrefix(Prefix(s), k, k);
  }
}
