/** The emitted hash map: eight chained buckets that never grow. */
module HashMap {
  import opened Words

  /** The bucket a key belongs to. */
  function Bucket(key: int): (b: nat)
    ensures b < 8
  {
    key % 8
  }

  /** It is the unsigned value of the key modulo the capacity. */
  lemma BucketIsUnsigned(key: Int64)
    ensures Bucket(key) == ToUnsigned(key) % 8
  {
  }

  /** A node's key and link are set when it is made and never change; `rest` lists the nodes
      that follow it. */
  class Node {
    const key: Int64
    const next: Node?
    var value: Int64
    ghost const rest: seq<Node>

    constructor (key: Int64, value: Int64, next: Node?)
      requires next != null ==> next.Linked()
      ensures this.key == key && this.value == value && this.next == next
      ensures rest == Chain(next) && Linked()
    {
      this.key, this.value, this.next := key, value, next;
      this.rest := Chain(next);
    }

    ghost predicate Linked()
      decreases |rest|
    {
      if rest == [] then next == null
      else next == rest[0] && rest[0].rest == rest[1..] && rest[0].Linked()
    }
  }

  /** The nodes of the chain that starts at `head`. */
  ghost function Chain(head: Node?): seq<Node> {
    if head == null then [] else [head] + head.rest
  }

  lemma ChainTail(n: Node)
    requires n.Linked()
    ensures Chain(n.next) == n.rest && (n.next != null ==> n.next.Linked())
  {
  }

  /** A key has one node, in the chain of its own bucket and in no other, and the chains hold
      nothing else. */
  ghost predicate Placed(heads: seq<Node?>, at: map<int, Node>) {
    && |heads| == 8
    && (forall k :: k in at ==> at[k].key == k && at[k] in Chain(heads[Bucket(k)]))
    && (forall b, n :: 0 <= b < 8 && n in Chain(heads[b]) ==> Bucket(n.key) == b && n.key in at && at[n.key] == n)
    && (forall b :: 0 <= b < 8 && heads[b] != null ==> heads[b].Linked())
  }

  lemma PlacedInsert(heads: seq<Node?>, at: map<int, Node>, n: Node)
    requires Placed(heads, at) && n.key !in at
    requires n.Linked() && n.rest == Chain(heads[Bucket(n.key)])
    ensures Placed(heads[Bucket(n.key) := n], at[n.key := n])
  {
    var after, now := heads[Bucket(n.key) := n], at[n.key := n];
    forall b, m | 0 <= b < 8 && m in Chain(after[b])
      ensures Bucket(m.key) == b && m.key in now && now[m.key] == m
    {
      ChainAfter(heads, n, b);
      assert m != n || b != Bucket(n.key) ==> m in Chain(heads[b]);
    }
    forall k | k in now ensures now[k].key == k && now[k] in Chain(after[Bucket(k)]) {
      ChainAfter(heads, n, Bucket(k));
      assert k != n.key ==> at[k] in Chain(heads[Bucket(k)]);
    }
  }

  lemma ChainAfter(heads: seq<Node?>, n: Node, b: nat)
    requires b < |heads| == 8 && n.rest == Chain(heads[Bucket(n.key)])
    ensures Chain(heads[Bucket(n.key) := n][b]) ==
            if b == Bucket(n.key) then [n] + Chain(heads[b]) else Chain(heads[b])
  {
  }

  lemma SizeOfUpdate(m: map<int, int>, key: Int64, value: Int64)
    ensures |m[key := value]| == |m| + (if key in m then 0 else 1)
  {
    assert m[key := value].Keys == m.Keys + {key};
  }

  class Map {
    var cap: nat
    var used: nat
    var buckets: array?<Node?>

    ghost var contents: map<int, int>
    ghost var at: map<int, Node>
    ghost var heads: seq<Node?>
    ghost var repr: set<object>

    ghost predicate Valid()
      reads this, repr
      ensures Valid() ==> this in repr
    {
      Shape() && used == |contents|
    }

    /** The buckets hold the chains of `at`, and the nodes hold the values of `contents`. */
    ghost predicate Shape()
      reads this, repr
      ensures Shape() ==> this in repr
    {
      && this in repr && at.Keys == contents.Keys
      && (buckets == null ==> cap == 0 && contents == map[])
      && (buckets != null ==> buckets in repr && cap == 8 && buckets.Length == 8 && Placed(heads, at)
                              && (forall b :: 0 <= b < 8 ==> buckets[b] == heads[b]))
      && (forall k :: k in at ==> at[k] in repr && at[k].value == contents[k])
    }

    /** `map_new`: a zeroed structure. */
    constructor ()
      ensures Valid() && fresh(repr) && contents == map[]
    {
      cap, used, buckets := 0, 0, null;
      contents, at, heads, repr := map[], map[], [], {this};
    }

    /** The search loop of `map_set`, `map_get` and `map_has`. */
    method Find(key: Int64) returns (n: Node?)
      requires Shape() && buckets != null
      ensures n == null ==> key !in contents
      ensures n != null ==> key in contents && n == at[key]
    {
      n := buckets[ToUnsigned(key) % cap];
      ghost var head := n;
      while n != null
        invariant n != null ==> n.Linked()
        invariant forall m :: m in Chain(n) ==> m in Chain(head)
        invariant key in contents ==> at[key] in Chain(n)
        decreases |Chain(n)|
      {
        if n.key == key {
          return;
        }
        ChainTail(n);
        n := n.next;
      }
    }

    method Set(key: Int64, value: Int64)
      requires Valid()
      modifies repr
      ensures Valid() && fresh(repr - old(repr))
      ensures contents == old(contents)[key := value]
    {
      SizeOfUpdate(contents, key, value);
      if buckets == null {
        AllocateBuckets();
      }
      var n := Find(key);
      if n != null {
        Overwrite(n, value);
      } else {
        Insert(key, value);
      }
    }

    /** The eight empty buckets of the first `map_set`. */
    method AllocateBuckets()
      requires Shape() && buckets == null
      modifies this
      ensures Shape() && buckets != null && fresh(buckets) && repr == old(repr) + {buckets}
      ensures contents == old(contents) && used == old(used)
    {
      cap := 8;
      buckets := new Node?[8](_ => null);
      repr := repr + {buckets};
      heads := seq(8, _ => null);
    }

    /** A key that is present: its node is updated in place. */
    method Overwrite(n: Node, value: Int64)
      requires Shape() && buckets != null && n.key in contents && at[n.key] == n
      modifies this`contents, n`value
      ensures Shape() && contents == old(contents)[n.key := value]
    {
      n.value := value;
      contents := contents[n.key := value];
    }

    /** A key that is absent: a new node at the head of its chain. */
    method Insert(key: Int64, value: Int64)
      requires Shape() && buckets != null && key !in contents
      modifies this, buckets
      ensures Shape() && fresh(repr - old(repr))
      ensures contents == old(contents)[key := value] && used == old(used) + 1
    {
      var idx := ToUnsigned(key) % cap;
      var n := new Node(key, value, buckets[idx]);
      PlacedInsert(heads, at, n);
      Link(idx, n);
    }

    method Link(idx: nat, n: Node)
      requires Shape() && buckets != null && idx < 8 && n.key !in contents
      requires Placed(heads[idx := n], at[n.key := n])
      modifies this, buckets
      ensures Shape() && repr == old(repr) + {n}
      ensures contents == old(contents)[n.key := n.value] && used == old(used) + 1
    {
      buckets[idx] := n;
      used := used + 1;
      contents := contents[n.key := n.value];
      at := at[n.key := n];
      heads := heads[idx := n];
      repr := repr + {n};
    }

    /** The value, cast to `int`; -1 when there is none. */
    method Get(key: Int64) returns (r: int)
      requires Valid()
      ensures r == if key in contents then ToInt32(contents[key]) else -1
    {
      if buckets == null {
        return -1;
      }
      var n := Find(key);
      return if n != null then ToInt32(n.value) else -1;
    }

    method Has(key: Int64) returns (r: int)
      requires Valid()
      ensures r == if key in contents then 1 else 0
    {
      if buckets == null {
        return 0;
      }
      var n := Find(key);
      return if n != null then 1 else 0;
    }

    method Len() returns (r: int)
      requires Valid()
      ensures r == ToInt32(|contents|)
    {
      return ToInt32(used);
    }
  }

  lemma {:induction false} RestIsSuffix(n: Node, i: nat)
    requires n.Linked() && i < |n.rest|
    ensures n.rest[i].rest == n.rest[i + 1..]
    decreases i
  {
    if i > 0 {
      RestIsSuffix(n.rest[0], i - 1);
      assert n.rest[i] == n.rest[0].rest[i - 1];
    }
  }

  /** No key stands twice: two places in the same chain hold different keys, and so do two
      different chains. */
  lemma NoKeyTwice(heads: seq<Node?>, at: map<int, Node>, b: nat, i: nat, c: nat, j: nat)
    requires Placed(heads, at) && b < 8 && c < 8
    requires i < |Chain(heads[b])| && j < |Chain(heads[c])| && (b, i) != (c, j)
    ensures Chain(heads[b])[i].key != Chain(heads[c])[j].key
  {
    var n, m := Chain(heads[b])[i], Chain(heads[c])[j];
    assert n in Chain(heads[b]) && m in Chain(heads[c]);
    if b == c {
      AtPlace(heads[b], i);
      AtPlace(heads[b], j);
    }
  }

  lemma AtPlace(head: Node, i: nat)
    requires head.Linked() && i < |Chain(head)|
    ensures |Chain(head)[i].rest| == |Chain(head)| - 1 - i
  {
    if i > 0 {
      RestIsSuffix(head, i - 1);
    }
  }

  // ---- Runs ----

  /** The mathematical map after a run of `map_set` calls. */
  function Run(sets: seq<(Int64, Int64)>): map<int, int> {
    if sets == [] then map[]
    else Run(sets[..|sets| - 1])[sets[|sets| - 1].0 := sets[|sets| - 1].1]
  }

  /** Over every run a present key is one that was set, and its value is the last one set. */
  lemma {:induction false} LookupIsLastSet(sets: seq<(Int64, Int64)>, key: Int64)
    ensures key in Run(sets) <==> exists i :: 0 <= i < |sets| && sets[i].0 == key
    ensures forall i :: 0 <= i < |sets| && sets[i].0 == key &&
                        (forall j :: i < j < |sets| ==> sets[j].0 != key) ==>
                        key in Run(sets) && Run(sets)[key] == sets[i].1
  {
    if sets != [] {
      var init, last := sets[..|sets| - 1], sets[|sets| - 1];
      LookupIsLastSet(init, key);
      assert forall i :: 0 <= i < |init| ==> init[i] == sets[i];
      assert key in Run(init) && last.0 != key ==> exists i :: 0 <= i < |sets| && sets[i].0 == key by {
        if key in Run(init) {
          var i :| 0 <= i < |init| && init[i].0 == key;
          assert sets[i].0 == key;
        }
      }
    }
  }

  /** The number of entries is the number of distinct keys set. */
  lemma {:induction false} SizeIsDistinctKeys(sets: seq<(Int64, Int64)>)
    ensures Run(sets).Keys == set i | 0 <= i < |sets| :: sets[i].0
    ensures |Run(sets)| == |set i | 0 <= i < |sets| :: sets[i].0|
  {
    if sets != [] {
      var init, last := sets[..|sets| - 1], sets[|sets| - 1];
      SizeIsDistinctKeys(init);
      var keys := set i | 0 <= i < |sets| :: sets[i].0;
      forall k ensures k in Run(sets).Keys <==> k in keys {
        if k in keys {
          var i :| 0 <= i < |sets| && sets[i].0 == k;
          assert i < |init| ==> init[i].0 == k;
        }
        if k in Run(init).Keys {
          var i :| 0 <= i < |init| && init[i].0 == k;
          assert sets[i].0 == k;
        }
      }
    }
  }

  /** Every run on the heap structure represents that map. */
  method Replay(sets: seq<(Int64, Int64)>) returns (m: Map)
    ensures fresh(m.repr) && m.Valid() && m.contents == Run(sets)
  {
    m := new Map();
    for n := 0 to |sets|
      invariant fresh(m.repr) && m.Valid() && m.contents == Run(sets[..n])
    {
      m.Set(sets[n].0, sets[n].1);
      assert sets[..n + 1][..n] == sets[..n];
    }
    assert sets[..|sets|] == sets;
  }
}
