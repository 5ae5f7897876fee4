/**
  The chained hash table of src/lib/hash.c, under the buffer cache and the descriptor table.  Inserting a
  key again hides what was there, and deleting it uncovers that.
 */
module HashTable {
  import opened Arithmetic

  datatype Node = Node(key: nat, data: int)

  // The values of a key in a chain, newest first
  function Values(chain: seq<Node>, key: nat): seq<int> {
    if chain == [] then []
    else (if chain[0].key == key then [chain[0].data] else []) + Values(chain[1..], key)
  }

  // hashidx(); the size is a power of two, so the mask keeps the remainder
  function Index(key: nat, size: nat): (i: nat)
    requires size > 0
    ensures i < size
  {
    Xor(Xor(key, key / 4, 32), key / 64, 32) % size
  }

  function Total(chains: seq<seq<Node>>): nat {
    if chains == [] then 0 else |chains[0]| + Total(chains[1..])
  }

  lemma {:induction false} TotalUpdate(chains: seq<seq<Node>>, i: nat, chain: seq<Node>)
    requires i < |chains|
    ensures Total(chains[i := chain]) == Total(chains) - |chains[i]| + |chain|
  {
    if i == 0 {
      assert chains[i := chain][1..] == chains[1..];
    } else {
      assert chains[i := chain][1..] == chains[1..][i - 1 := chain];
      TotalUpdate(chains[1..], i - 1, chain);
    }
  }

  lemma {:induction false} TotalPrefix(chains: seq<seq<Node>>, i: nat)
    requires i < |chains|
    ensures Total(chains[..i + 1]) == Total(chains[..i]) + |chains[i]|
  {
    if i == 0 {
      assert chains[..1] == [chains[0]] && chains[..1][1..] == [];
    } else {
      assert chains[..i + 1][1..] == chains[1..][..i] && chains[..i][1..] == chains[1..][..i - 1];
      TotalPrefix(chains[1..], i - 1);
    }
  }

  // What the values become when the first node with the key leaves the chain
  lemma {:induction false} FirstOut(chain: seq<Node>, k: nat, key: nat)
    requires k < |chain| && chain[k].key == key && forall j :: 0 <= j < k ==> chain[j].key != key
    ensures Values(chain, key) != [] && Values(chain[..k] + chain[k + 1..], key) == Values(chain, key)[1..]
    ensures forall other :: other != key ==> Values(chain[..k] + chain[k + 1..], other) == Values(chain, other)
  {
    var t := chain[..k] + chain[k + 1..];
    if k == 0 {
      assert t == chain[1..];
    } else {
      assert t[0] == chain[0] && t[1..] == chain[1..][..k - 1] + chain[1..][k..];
      FirstOut(chain[1..], k - 1, key);
    }
  }

  lemma {:induction false} FirstIn(chain: seq<Node>, k: nat, key: nat)
    requires k <= |chain| && forall j :: 0 <= j < k ==> chain[j].key != key
    ensures Values(chain, key) == Values(chain[k..], key)
  {
    if k > 0 { FirstIn(chain[1..], k - 1, key); }
  }

  class Hash {
    const chains: array<seq<Node>>

    ghost predicate Valid()
      reads this
    {
      chains.Length > 0
    }

    // All values that the table has for a key, newest first
    ghost function Of(key: nat): seq<int>
      requires Valid()
      reads this, chains
    {
      Values(chains[Index(key, chains.Length)], key)
    }

    // hash_alloc(): at least 8 chains, and a power of two
    constructor (hashsize: nat)
      ensures Valid() && fresh(chains) && Total(chains[..]) == 0 && forall key: nat :: Of(key) == []
    {
      var hashlim: nat := 8;
      while hashsize > hashlim
        invariant hashlim >= 8
      {
        hashlim := 2 * hashlim;
      }
      chains := new seq<Node>[hashlim](_ => []);
      new;
      NoNodes(chains[..]);
    }

    // hash_insert()
    method Insert(key: nat, data: int)
      requires Valid()
      modifies chains
      ensures Of(key) == [data] + old(Of(key)) && Total(chains[..]) == old(Total(chains[..])) + 1
      ensures forall other: nat :: other != key ==> Of(other) == old(Of(other))
    {
      var idx := Index(key, chains.Length);
      TotalUpdate(chains[..], idx, [Node(key, data)] + chains[idx]);
      ghost var was := chains[..];
      chains[idx] := [Node(key, data)] + chains[idx];
      assert chains[..] == was[idx := [Node(key, data)] + was[idx]];
      assert ([Node(key, data)] + was[idx])[1..] == was[idx];
    }

    // hash_delete(); 1 when the key is not there
    method Delete(key: nat) returns (r: int)
      requires Valid()
      modifies chains
      ensures r == if old(Of(key)) == [] then 1 else 0
      ensures r == 0 ==> Of(key) == old(Of(key))[1..] && Total(chains[..]) == old(Total(chains[..])) - 1
      ensures r == 1 ==> Of(key) == [] && Total(chains[..]) == old(Total(chains[..]))
      ensures forall other: nat :: other != key ==> Of(other) == old(Of(other))
    {
      var idx := Index(key, chains.Length);
      var k := Find(chains[idx], key);
      if k == |chains[idx]| {
        return 1;
      }
      FirstOut(chains[idx], k, key);
      ghost var was := chains[..];
      TotalUpdate(was, idx, was[idx][..k] + was[idx][k + 1..]);
      chains[idx] := chains[idx][..k] + chains[idx][k + 1..];
      assert chains[..] == was[idx := was[idx][..k] + was[idx][k + 1..]];
      r := 0;
    }

    // hash_lookup(); the newest value, if there is one
    method Lookup(key: nat) returns (found: bool, data: int)
      requires Valid()
      ensures found == (Of(key) != []) && (found ==> data == Of(key)[0])
    {
      var idx := Index(key, chains.Length);
      var k := Find(chains[idx], key);
      found := k < |chains[idx]|;
      data := if found then chains[idx][k].data else 0;
    }

    // hash_size()
    method Size() returns (cnt: nat)
      requires Valid()
      ensures cnt == Total(chains[..])
    {
      cnt := 0;
      var x := 0;
      assert chains[..0] == [];
      while x < chains.Length
        invariant 0 <= x <= chains.Length && cnt == Total(chains[..x])
      {
        TotalPrefix(chains[..], x);
        assert chains[..][..x + 1] == chains[..x + 1] && chains[..][..x] == chains[..x];
        cnt := cnt + |chains[x]|;
        x := x + 1;
      }
      assert chains[..x] == chains[..];
    }
  }

  lemma {:induction false} NoNodes(chains: seq<seq<Node>>)
    requires forall i :: 0 <= i < |chains| ==> chains[i] == []
    ensures Total(chains) == 0
  {
    if chains != [] { NoNodes(chains[1..]); }
  }

  // The walk along a chain
  method Find(chain: seq<Node>, key: nat) returns (k: nat)
    ensures k <= |chain| && forall j :: 0 <= j < k ==> chain[j].key != key
    ensures k < |chain| ==> chain[k].key == key && Values(chain, key) != [] && Values(chain, key)[0] == chain[k].data
    ensures k == |chain| ==> Values(chain, key) == []
  {
    k := 0;
    while k < |chain| && chain[k].key != key
      invariant k <= |chain| && forall j :: 0 <= j < k ==> chain[j].key != key
    {
      k := k + 1;
    }
    FirstIn(chain, k, key);
  }
}
