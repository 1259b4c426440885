// The separate-chaining hash table of TCASM_hashtable.c. Each bucket is a
// list (Lists.DList) of (key, value pointer) nodes kept in strcmp order; a
// value is a heap cell, so two lookups of one key share the same record.
module HashTables {
  import opened Common
  import opened Lists
  import opened Hashing

  /** TCASM_HASHTABLE_DEFAULT_SIZE: the bucket count used when init is given 0. */
  const DefaultSize: nat := 1201

  /** sizeof(TCASM_hashtable_node_t) on the target: two pointers. */
  const HashNodeSize: nat := 16


  // ---------------------------------------------------------------------
  // strcmp on two NUL-free keys


  /**
   * The sign of strcmp(a, b): the first differing character decides (each
   * character stands for one unsigned byte), and a proper prefix is smaller.
   */
  function Strcmp(a: string, b: string): (r: int)
    ensures -1 <= r <= 1
    decreases |a|
  {
    if |a| == 0 && |b| == 0 then 0
    else if |a| == 0 then -1
    else if |b| == 0 then 1
    else if a[0] < b[0] then -1
    else if a[0] > b[0] then 1
    else Strcmp(a[1..], b[1..])
  }

  /** strcmp is zero exactly for equal keys. */
  lemma {:induction false} StrcmpZero(a: string, b: string)
    ensures Strcmp(a, b) == 0 <==> a == b
    decreases |a|
  {
    if |a| > 0 && |b| > 0 && a[0] == b[0] {
      StrcmpZero(a[1..], b[1..]);
      assert a == [a[0]] + a[1..] && b == [b[0]] + b[1..];
    }
  }

  /** Swapping the arguments negates the sign. */
  lemma {:induction false} StrcmpAntisymmetric(a: string, b: string)
    ensures Strcmp(b, a) == -Strcmp(a, b)
    decreases |a|
  {
    if |a| > 0 && |b| > 0 && a[0] == b[0] {
      StrcmpAntisymmetric(a[1..], b[1..]);
    }
  }

  /** strcmp's "less than" is transitive, so a chain sorted pairwise is ordered. */
  lemma {:induction false} StrcmpTransitive(a: string, b: string, c: string)
    requires Strcmp(a, b) < 0 && Strcmp(b, c) < 0
    ensures Strcmp(a, c) < 0
    decreases |a|
  {
    if |a| > 0 && |b| > 0 && |c| > 0
      && a[0] == b[0] && b[0] == c[0] {
      StrcmpTransitive(a[1..], b[1..], c[1..]);
    }
  }

  // ---------------------------------------------------------------------
  // the table

  /** A value the table hands out by pointer (the calloc'd value block). */
  class Cell<V> {
    var contents: V

    constructor (v: V)
      ensures contents == v
    {
      contents := v;
    }
  }

  /** TCASM_hashtable_node_t: a key and the pointer to its value. */
  datatype HashNode<V> = HashNode(key: string, value: Cell<V>)

  /** Some node of chain s has key k. */
  predicate HasKey<V>(s: seq<HashNode<V>>, k: string)
  {
    |s| > 0 && (s[0].key == k || HasKey(s[1..], k))
  }

  /** HasKey is membership: k is the key of some position of the chain. */
  lemma {:induction false} HasKeyAt<V>(s: seq<HashNode<V>>, k: string)
    ensures HasKey(s, k) <==> exists j :: 0 <= j < |s| && s[j].key == k
  {
    if |s| > 0 {
      HasKeyAt(s[1..], k);
      if exists j :: 0 <= j < |s| && s[j].key == k {
        var j :| 0 <= j < |s| && s[j].key == k;
        if j > 0 {
          assert s[1..][j - 1].key == k;
        }
      }
      if HasKey(s[1..], k) {
        var j :| 0 <= j < |s[1..]| && s[1..][j].key == k;
        assert s[j + 1].key == k;
      }
    }
  }

  /** A chain in strictly ascending strcmp order: no key twice, smallest first. */
  ghost predicate Ascending<V>(s: seq<HashNode<V>>)
  {
    forall j, k :: 0 <= j < k < |s| ==> Strcmp(s[j].key, s[k].key) < 0
  }

  /** Inserting before the first larger key keeps a chain ascending. */
  lemma InsertAscending<V>(s: seq<HashNode<V>>, p: nat, n: HashNode<V>)
    requires Ascending(s) && p <= |s|
    requires forall j :: 0 <= j < p ==> Strcmp(s[j].key, n.key) < 0
    requires p < |s| ==> Strcmp(n.key, s[p].key) < 0
    ensures Ascending(InsertAt(s, p, n))
  {
    var t := InsertAt(s, p, n);
    forall j, k | 0 <= j < k < |t|
      ensures Strcmp(t[j].key, t[k].key) < 0
    {
      if j == p && k > p + 1 {
        StrcmpTransitive(n.key, s[p].key, s[k - 1].key);
      }
    }
  }

  /** Every chain ascends in strcmp order. */
  ghost predicate ChainsAscending<V>(chains: seq<seq<HashNode<V>>>)
  {
    forall i :: 0 <= i < |chains| ==> Ascending(chains[i])
  }

  /** Every node of chain i has a key hashing to i and is that key's record. */
  ghost predicate ChainsPlaced<V>(n: nat, chains: seq<seq<HashNode<V>>>, contents: map<string, Cell<V>>)
    requires n > 0
  {
    forall i, j :: 0 <= i < |chains| && 0 <= j < |chains[i]| ==>
      Index(n, chains[i][j].key) == i
      && chains[i][j].key in contents && contents[chains[i][j].key] == chains[i][j].value
  }

  /** Every stored key sits in the chain of its bucket. */
  ghost predicate ChainsCover<V>(n: nat, chains: seq<seq<HashNode<V>>>, contents: map<string, Cell<V>>)
    requires n > 0 && |chains| == n
  {
    forall k :: k in contents ==> HasKey(chains[Index(n, k)], k)
  }

  /** No two keys share a record. */
  ghost predicate Injective<K, V>(m: map<K, V>)
  {
    forall k1, k2 :: k1 in m && k2 in m && k1 != k2 ==> m[k1] != m[k2]
  }

  /**
   * The table's invariant on values: chain i holds exactly the keys hashing
   * to i, in ascending strcmp order, each with its record; every stored key
   * is in its chain; and no two keys share a record.
   */
  ghost predicate ChainsOk<V>(n: nat, chains: seq<seq<HashNode<V>>>, contents: map<string, Cell<V>>)
  {
    n > 0 && |chains| == n
    && ChainsAscending(chains)
    && ChainsPlaced(n, chains, contents)
    && ChainsCover(n, chains, contents)
    && Injective(contents)
  }

  /** A key that strcmp places strictly between neighbours is in no position of the chain. */
  lemma NotInChain<V>(s: seq<HashNode<V>>, p: nat, key: string)
    requires Ascending(s) && p <= |s|
    requires forall j :: 0 <= j < p ==> Strcmp(s[j].key, key) < 0
    requires p < |s| ==> Strcmp(key, s[p].key) < 0
    ensures !HasKey(s, key)
  {
    HasKeyAt(s, key);
    forall j | 0 <= j < |s|
      ensures s[j].key != key
    {
      if j < p {
        StrcmpZero(s[j].key, key);
      } else {
        if j > p {
          StrcmpTransitive(key, s[p].key, s[j].key);
        }
        StrcmpZero(key, s[j].key);
      }
    }
  }

  /** The chain with node inserted at p. */
  function InsertAt<V>(s: seq<HashNode<V>>, p: nat, node: HashNode<V>): (t: seq<HashNode<V>>)
    requires p <= |s|
    ensures |t| == |s| + 1 && t[p] == node
    ensures forall j :: 0 <= j < p ==> t[j] == s[j]
    ensures forall j :: p < j < |t| ==> t[j] == s[j - 1]
  {
    s[..p] + [node] + s[p..]
  }

  lemma AddPlaced<V>(n: nat, chains: seq<seq<HashNode<V>>>, contents: map<string, Cell<V>>,
                     idx: nat, p: nat, node: HashNode<V>)
    requires n > 0 && ChainsPlaced(n, chains, contents) && node.key !in contents
    requires idx < |chains| && idx == Index(n, node.key) && p <= |chains[idx]|
    ensures ChainsPlaced(n, chains[idx := InsertAt(chains[idx], p, node)], contents[node.key := node.value])
  {
    var chains': seq<seq<HashNode<V>>> := chains[idx := InsertAt(chains[idx], p, node)];
    var contents': map<string, Cell<V>> := contents[node.key := node.value];
    forall i, j | 0 <= i < |chains'| && 0 <= j < |chains'[i]|
      ensures Index(n, chains'[i][j].key) == i
      ensures chains'[i][j].key in contents' && contents'[chains'[i][j].key] == chains'[i][j].value
    {
      if i == idx && j != p {
        var j' := if j < p then j else j - 1;
        assert chains'[i][j] == chains[idx][j'];
      }
    }
  }

  lemma AddCover<V>(n: nat, chains: seq<seq<HashNode<V>>>, contents: map<string, Cell<V>>,
                    idx: nat, p: nat, node: HashNode<V>)
    requires n > 0 && |chains| == n && ChainsCover(n, chains, contents)
    requires idx < n && idx == Index(n, node.key) && p <= |chains[idx]|
    ensures ChainsCover(n, chains[idx := InsertAt(chains[idx], p, node)], contents[node.key := node.value])
  {
    var s := chains[idx];
    var t := InsertAt(s, p, node);
    var chains' := chains[idx := t];
    forall k | k in contents[node.key := node.value]
      ensures HasKey(chains'[Index(n, k)], k)
    {
      HasKeyAt(chains'[Index(n, k)], k);
      if k == node.key {
        assert t[p].key == k;
      } else if Index(n, k) == idx {
        HasKeyAt(s, k);
        var j :| 0 <= j < |s| && s[j].key == k;
        if j < p {
          assert t[j].key == k;
        } else {
          assert t[j + 1].key == k;
        }
      }
    }
  }

  /**
   * A key absent from its chain is absent from the table, and adding it
   * with a record no other key uses, at a place that keeps the chain
   * ascending, keeps the invariant.
   */
  lemma AddKey<V>(n: nat, chains: seq<seq<HashNode<V>>>, contents: map<string, Cell<V>>,
                  idx: nat, p: nat, node: HashNode<V>)
    requires ChainsOk(n, chains, contents)
    requires idx < n && idx == Index(n, node.key) && p <= |chains[idx]|
    requires forall j :: 0 <= j < p ==> Strcmp(chains[idx][j].key, node.key) < 0
    requires p < |chains[idx]| ==> Strcmp(node.key, chains[idx][p].key) < 0
    requires node.value !in contents.Values
    ensures node.key !in contents
    ensures ChainsOk(n, chains[idx := InsertAt(chains[idx], p, node)], contents[node.key := node.value])
  {
    NotInChain(chains[idx], p, node.key);
    InsertAscending(chains[idx], p, node);
    AddPlaced(n, chains, contents, idx, p, node);
    AddCover(n, chains, contents, idx, p, node);
  }

  class HashTable<V> {
    /** value_size: kept for fidelity; every value is a V. */
    var valueSize: nat
    /** array_size: the number of buckets. */
    var arraySize: nat
    /** array: one chain per bucket. */
    var buckets: array<DList<HashNode<V>>>
    /** The all-zero value calloc gives a new record. */
    const zero: V

    /** The key -> record pointer map the table stores. */
    ghost var Contents: map<string, Cell<V>>
    /** The node values of each chain. */
    ghost var Chains: seq<seq<HashNode<V>>>
    /** The bucket lists; records are never among them, so writing a record keeps Valid. */
    ghost var Repr: set<DList<HashNode<V>>>
    /** The bucket each list sits in: distinct buckets hold distinct lists. */
    ghost var Slot: map<DList<HashNode<V>>, nat>

    ghost predicate Valid()
      reads this, buckets, Repr
    {
      HeapOk() && ChainsOk(arraySize, Chains, Contents)
    }

    /** The heap side of Valid: bucket i is its own list, and its nodes are Chains[i]. */
    ghost predicate HeapOk()
      reads this, buckets, Repr
    {
      buckets.Length == arraySize == |Chains|
      && (forall i :: 0 <= i < arraySize ==> buckets[i] in Repr && buckets[i] in Slot && Slot[buckets[i]] == i)
      && (forall i :: 0 <= i < arraySize ==>
            buckets[i].elems == Chains[i] && (buckets[i].valueSize == 0 ==> Chains[i] == []))
    }

    /**
     * TCASM_hashtable_init: arraySize buckets (1201 when 0), each a list
     * whose value_size is 0, and no keys.
     */
    constructor (valueSize: nat, arraySize: nat, zero: V)
      ensures Valid() && fresh(Repr) && fresh(buckets)
      ensures this.valueSize == valueSize
      ensures this.arraySize == (if arraySize != 0 then arraySize else DefaultSize)
      ensures Contents == map[]
      ensures this.zero == zero
    {
      this.valueSize := valueSize;
      var n := if arraySize != 0 then arraySize else DefaultSize;
      this.arraySize := n;
      this.zero := zero;
      var empty := new DList<HashNode<V>>.Zeroed();
      var a := new DList<HashNode<V>>[n](_ => empty);
      var i := 0;
      ghost var slot: map<DList<HashNode<V>>, nat> := map[];
      while i < n
        invariant 0 <= i <= n
        invariant forall j :: 0 <= j < i ==> fresh(a[j])
        invariant forall j :: 0 <= j < i ==> a[j].valueSize == 0 && a[j].elems == []
        invariant forall j :: 0 <= j < i ==> a[j] in slot && slot[a[j]] == j
      {
        var l := new DList<HashNode<V>>.Zeroed();
        a[i] := l;
        slot := slot[l := i];
        i := i + 1;
      }
      Slot := slot;
      buckets := a;
      Contents := map[];
      Chains := seq(n, _ => []);
      Repr := set j | 0 <= j < n :: a[j];
    }

    /**
     * TCASM_hashtable_get_node: the node holding key. An existing key gives
     * back its own record with created false and changes nothing; a new key
     * gets a fresh zero record, placed in its chain before the first larger
     * key, with created true.
     */
    method GetNode(key: string) returns (node: HashNode<V>, created: bool)
      requires Valid()
      modifies this, Repr
      ensures Valid() && Repr == old(Repr) && buckets == old(buckets)
      ensures node.key == key
      ensures created <==> key !in old(Contents)
      ensures !created ==> node.value == old(Contents)[key] && Contents == old(Contents)
      ensures created ==>
        fresh(node.value) && node.value.contents == zero && Contents == old(Contents)[key := node.value]
    {
      var idx, keySize := Hash(arraySize, key);
      var chain := buckets[idx];
      if chain.valueSize == 0 {
        created := true;
        var cell := new Cell(zero);
        node := HashNode(key, cell);
        NewKey(idx, chain, None, node, true);
        return;
      }
      var pos, found := Search(chain, key);
      if found {
        created := false;
        node := chain.elems[pos.value];
        return;
      }
      created := true;
      var cell := new Cell(zero);
      node := HashNode(key, cell);
      NewKey(idx, chain, pos, node, false);
    }

    /**
     * The search loop of get and get_node: walk the ascending chain while
     * keys are smaller. Either key is found at pos, or pos is where it
     * belongs: the first larger key, or None past the end.
     */
    static method Search(chain: DList<HashNode<V>>, key: string) returns (pos: Option<nat>, found: bool)
      ensures pos.Some? ==> pos.value < |chain.elems|
      ensures found ==> pos.Some? && chain.elems[pos.value].key == key
      ensures !found ==> pos.Some? ==> Strcmp(key, chain.elems[pos.value].key) < 0
      ensures !found ==> forall j :: 0 <= j < (if pos.Some? then pos.value else |chain.elems|) ==>
        Strcmp(chain.elems[j].key, key) < 0
    {
      ghost var s := chain.elems;
      found := false;
      pos := chain.First();
      while pos.Some?
        invariant pos.Some? ==> pos.value < |s|
        invariant pos.Some? ==> forall j :: 0 <= j < pos.value ==> Strcmp(s[j].key, key) < 0
        invariant pos.None? ==> forall j :: 0 <= j < |s| ==> Strcmp(s[j].key, key) < 0
        decreases if pos.Some? then |s| - pos.value else 0
      {
        var cmp := Strcmp(chain.elems[pos.value].key, key);
        if cmp == 0 {
          StrcmpZero(chain.elems[pos.value].key, key);
          found := true;
          return;
        } else if cmp < 0 {
          pos := chain.Next(pos.value);
        } else {
          StrcmpAntisymmetric(chain.elems[pos.value].key, key);
          break;
        }
      }
    }

    /**
     * The shared tail of get and get_node: the new node goes into chain idx
     * immediately before position pos (at the end when pos is None); an
     * untouched chain first gets its value_size (initialise).
     */
    method NewKey(idx: nat, chain: DList<HashNode<V>>, pos: Option<nat>, node: HashNode<V>, initialise: bool)
      requires Valid() && idx < arraySize && chain == buckets[idx]
      requires idx == Index(arraySize, node.key) && (initialise || chain.valueSize != 0)
      requires pos.Some? ==> pos.value < |chain.elems| && Strcmp(node.key, chain.elems[pos.value].key) < 0
      requires forall j :: 0 <= j < (if pos.Some? then pos.value else |chain.elems|) ==>
        Strcmp(chain.elems[j].key, node.key) < 0
      requires node.value !in Contents.Values
      modifies this, chain
      ensures Valid() && Repr == old(Repr) && buckets == old(buckets)
      ensures node.key !in old(Contents) && Contents == old(Contents)[node.key := node.value]
    {
      var p := if pos.Some? then pos.value else |chain.elems|;
      AddKey(arraySize, Chains, Contents, idx, p, node);
      Splice(idx, chain, pos, p, node, initialise);
    }

    /** The list and ghost updates of NewKey, kept apart from the value invariant. */
    method Splice(idx: nat, chain: DList<HashNode<V>>, pos: Option<nat>, ghost p: nat, node: HashNode<V>,
                  initialise: bool)
      requires HeapOk() && idx < arraySize && chain == buckets[idx]
      requires p == (if pos.Some? then pos.value else |chain.elems|)
      requires pos.Some? ==> pos.value < |chain.elems|
      requires initialise || chain.valueSize != 0
      modifies this, chain
      ensures HeapOk() && Repr == old(Repr) && buckets == old(buckets) && arraySize == old(arraySize)
      ensures Chains == old(Chains)[idx := InsertAt(old(Chains)[idx], p, node)]
      ensures Contents == old(Contents)[node.key := node.value]
    {
      if initialise {
        chain.valueSize := HashNodeSize;
      }
      chain.Insert(pos, node);
      assert chain.elems == InsertAt(old(chain.elems), p, node);
      Chains := Chains[idx := chain.elems];
      Contents := Contents[node.key := node.value];
      forall i | 0 <= i < arraySize
        ensures buckets[i].elems == Chains[i]
        ensures buckets[i].valueSize == 0 ==> Chains[i] == []
      {
        if i != idx {
          assert Slot[buckets[i]] != Slot[chain];
        }
      }
    }

    /** TCASM_hashtable_get: the record of key, created as get_node does. */
    method Get(key: string) returns (value: Cell<V>, created: bool)
      requires Valid()
      modifies this, Repr
      ensures Valid() && Repr == old(Repr) && buckets == old(buckets)
      ensures created <==> key !in old(Contents)
      ensures !created ==> value == old(Contents)[key] && Contents == old(Contents)
      ensures created ==>
        fresh(value) && value.contents == zero && Contents == old(Contents)[key := value]
    {
      var node;
      node, created := GetNode(key);
      value := node.value;
    }
  }
}
