/**
  The command hash table of src/bin/ash/exec.c: 31 chains of entries.
 */
module CommandTable {
  import opened CommandSearch

  const CMDTABLESIZE := 31

  datatype Entry = Entry(kind: Kind, rehash: bool)

  datatype Link = Link(name: string, entry: Entry)

  function Sum(name: string): nat {
    if name == "" then 0 else name[0] as nat + Sum(name[1..])
  }

  function Bucket(name: string): (b: nat)
    ensures b < CMDTABLESIZE
  {
    (((if name == "" then 0 else 16 * (name[0] as nat)) + Sum(name)) % 0x8000) % CMDTABLESIZE
  }

  ghost predicate DistinctNames(chain: seq<Link>) {
    forall i, j :: 0 <= i < j < |chain| ==> chain[i].name != chain[j].name
  }

  // The chain of bucket b holds the entries of the table that belong there
  ghost predicate ChainOf(chain: seq<Link>, b: nat, table: map<string, Entry>) {
    && DistinctNames(chain)
    && (forall k :: 0 <= k < |chain| ==>
          Bucket(chain[k].name) == b && chain[k].name in table && table[chain[k].name] == chain[k].entry)
    && (forall name :: name in table && Bucket(name) == b ==> InChain(chain, name))
  }

  ghost predicate InChain(chain: seq<Link>, name: string) {
    exists k :: 0 <= k < |chain| && chain[k].name == name
  }

  // The position of name in the chain, or its length
  function Position(chain: seq<Link>, name: string): (k: nat)
    ensures k <= |chain| && (k < |chain| ==> chain[k].name == name)
  {
    if chain == [] || chain[0].name == name then 0 else 1 + Position(chain[1..], name)
  }

  lemma {:induction false} PositionIs(chain: seq<Link>, name: string, k: nat)
    requires k <= |chain| && (forall j :: 0 <= j < k ==> chain[j].name != name) && (k < |chain| ==> chain[k].name == name)
    ensures Position(chain, name) == k
  {
    if k > 0 { PositionIs(chain[1..], name, k - 1); }
  }

  lemma {:induction false} PositionFinds(chain: seq<Link>, name: string)
    ensures Position(chain, name) < |chain| <==> InChain(chain, name)
  {
    if k :| 0 <= k < |chain| && chain[k].name == name {
      if k > 0 && chain[0].name != name {
        assert chain[1..][k - 1].name == name;
        PositionFinds(chain[1..], name);
      }
    }
  }

  class Table {
    const chains: array<seq<Link>>
    ghost var contents: map<string, Entry>

    ghost predicate Valid()
      reads this, chains
    {
      chains.Length == CMDTABLESIZE && forall b :: 0 <= b < CMDTABLESIZE ==> ChainOf(chains[b], b, contents)
    }

    constructor ()
      ensures Valid() && fresh(chains) && contents == map[]
    {
      chains := new seq<Link>[CMDTABLESIZE](_ => []);
      contents := map[];
    }

    // cmdlookup(name, 0): the bucket and the position, which is the end of the chain when there is no entry
    method Lookup(name: string) returns (b: nat, k: nat)
      requires Valid()
      ensures b == Bucket(name) && k == Position(chains[b], name) && (k < |chains[b]| <==> name in contents)
      ensures name in contents ==> contents[name] == chains[b][k].entry
    {
      var h := if name == "" then 0 else 16 * (name[0] as nat);
      var i := 0;
      while i < |name|
        invariant 0 <= i <= |name| && h + Sum(name[i..]) == (if name == "" then 0 else 16 * (name[0] as nat)) + Sum(name)
      {
        assert name[i..][0] == name[i] && name[i..][1..] == name[i + 1..];
        h := h + name[i] as nat;
        i := i + 1;
      }
      b := (h % 0x8000) % CMDTABLESIZE;
      k := 0;
      while k < |chains[b]| && chains[b][k].name != name
        invariant 0 <= k <= |chains[b]| && forall j :: 0 <= j < k ==> chains[b][j].name != name
      {
        k := k + 1;
      }
      PositionIs(chains[b], name, k);
      PositionFinds(chains[b], name);
      assert ChainOf(chains[b], b, contents);
    }

    // cmdlookup(name, 1), and what is stored in the entry
    method Put(name: string, entry: Entry)
      requires Valid()
      modifies this, chains
      ensures Valid() && contents == old(contents)[name := entry]
    {
      var b, k := Lookup(name);
      ghost var was := contents;
      contents := contents[name := entry];
      PutChain(chains[b], b, was, name, entry);
      forall c | 0 <= c < CMDTABLESIZE && c != b ensures ChainOf(chains[c], c, contents) {
        OtherChain(chains[c], c, was, contents, name);
      }
      if k == |chains[b]| {
        chains[b] := chains[b] + [Link(name, entry)];
      } else {
        chains[b] := chains[b][k := Link(name, entry)];
      }
    }

    // delete_cmd_entry()
    method Delete(name: string)
      requires Valid() && name in contents
      modifies this, chains
      ensures Valid() && contents == old(contents) - {name}
    {
      var b, k := Lookup(name);
      ghost var was := contents;
      contents := contents - {name};
      DeleteChain(chains[b], b, was, name);
      forall c | 0 <= c < CMDTABLESIZE && c != b ensures ChainOf(chains[c], c, contents) {
        OtherChain(chains[c], c, was, contents, name);
      }
      chains[b] := chains[b][..k] + chains[b][k + 1..];
    }

    // hashcd(): all normal commands, and the builtins when %builtin is in PATH
    method Mark(builtins: bool)
      requires Valid()
      modifies this, chains
      ensures Valid() && contents == AllMarked(old(contents), builtins)
    {
      hide ChainOf;
      var b := 0;
      while b < CMDTABLESIZE
        invariant 0 <= b <= CMDTABLESIZE == chains.Length && contents == old(contents)
        invariant forall c :: 0 <= c < b ==> ChainOf(chains[c], c, AllMarked(contents, builtins))
        invariant forall c :: b <= c < CMDTABLESIZE ==> ChainOf(chains[c], c, contents)
      {
        MarkChain(chains[b], b, contents, builtins);
        chains[b] := MarkLinks(chains[b], builtins);
        b := b + 1;
      }
      contents := AllMarked(contents, builtins);
    }

    // clearcmdentry()
    method Clear(firstchange: int, location: int)
      requires Valid()
      modifies this, chains
      ensures Valid() && contents == Cleared(old(contents), firstchange, location)
    {
      hide ChainOf;
      var b := 0;
      while b < CMDTABLESIZE
        invariant 0 <= b <= CMDTABLESIZE == chains.Length && contents == old(contents)
        invariant forall c :: 0 <= c < b ==> ChainOf(chains[c], c, Cleared(contents, firstchange, location))
        invariant forall c :: b <= c < CMDTABLESIZE ==> ChainOf(chains[c], c, contents)
      {
        ClearChain(chains[b], b, contents, firstchange, location);
        chains[b] := ClearLinks(chains[b], firstchange, location);
        b := b + 1;
      }
      contents := Cleared(contents, firstchange, location);
    }
  }

  lemma {:induction false} OtherChain(chain: seq<Link>, c: nat, was: map<string, Entry>, now: map<string, Entry>, name: string)
    requires ChainOf(chain, c, was) && Bucket(name) != c
    requires forall n :: n != name ==> (n in was <==> n in now) && (n in was ==> was[n] == now[n])
    ensures ChainOf(chain, c, now)
  {
  }

  lemma {:induction false} PutChain(chain: seq<Link>, b: nat, was: map<string, Entry>, name: string, entry: Entry)
    requires ChainOf(chain, b, was) && b == Bucket(name)
    ensures var k := Position(chain, name);
            var now := was[name := entry];
            ChainOf(if k == |chain| then chain + [Link(name, entry)] else chain[k := Link(name, entry)], b, now)
  {
    hide Bucket, Position;
    var k := Position(chain, name);
    PositionFinds(chain, name);
    var t := if k == |chain| then chain + [Link(name, entry)] else chain[k := Link(name, entry)];
    assert t[k].name == name;
    forall i | 0 <= i < |t| && i != k ensures t[i].name != name && t[i] == chain[i] {
      assert k == |chain| ==> !InChain(chain, name);
    }
    forall n | n in was && Bucket(n) == b ensures InChain(t, n) {
      var j :| 0 <= j < |chain| && chain[j].name == n;
      assert t[j].name == n;
    }
  }

  function Without(chain: seq<Link>, k: nat): seq<Link>
    requires k < |chain|
  {
    chain[..k] + chain[k + 1..]
  }

  lemma {:induction false} WithoutKeeps(chain: seq<Link>, k: nat, name: string)
    requires k < |chain| && name != chain[k].name
    ensures InChain(chain, name) ==> InChain(Without(chain, k), name)
  {
    if j :| 0 <= j < |chain| && chain[j].name == name {
      assert Without(chain, k)[if j < k then j else j - 1].name == name;
    }
  }

  lemma {:induction false} WithoutAt(chain: seq<Link>, k: nat, i: nat)
    requires k < |chain| && i + 1 < |chain| && DistinctNames(chain)
    ensures Without(chain, k)[i] == chain[if i < k then i else i + 1]
    ensures Without(chain, k)[i].name != chain[k].name
  {
  }

  lemma {:induction false} WithoutDistinct(chain: seq<Link>, k: nat)
    requires k < |chain| && DistinctNames(chain)
    ensures DistinctNames(Without(chain, k))
  {
    forall i, j | 0 <= i < j < |chain| - 1 ensures Without(chain, k)[i].name != Without(chain, k)[j].name {
      WithoutAt(chain, k, i);
      WithoutAt(chain, k, j);
    }
  }

  lemma {:induction false} DeleteChain(chain: seq<Link>, b: nat, was: map<string, Entry>, name: string)
    requires ChainOf(chain, b, was) && b == Bucket(name) && name in was
    ensures var k := Position(chain, name); k < |chain| && ChainOf(Without(chain, k), b, was - {name})
  {
    hide Bucket;
    var k := Position(chain, name);
    PositionFinds(chain, name);
    WithoutDistinct(chain, k);
    forall n | n in was && n != name && Bucket(n) == b ensures InChain(Without(chain, k), n) {
      WithoutKeeps(chain, k, n);
    }
    forall i | 0 <= i < |Without(chain, k)|
      ensures var l := Without(chain, k)[i];
              Bucket(l.name) == b && l.name in was - {name} && (was - {name})[l.name] == l.entry
    {
      WithoutAt(chain, k, i);
    }
  }

  // ----- hashcd() and clearcmdentry() -----

  function Marked(e: Entry, builtins: bool): Entry {
    if e.kind.Normal? || builtins then e.(rehash := true) else e
  }

  function AllMarked(table: map<string, Entry>, builtins: bool): map<string, Entry> {
    map name | name in table :: Marked(table[name], builtins)
  }

  predicate Goes(e: Entry, firstchange: int, location: int) {
    if e.kind.Normal? then e.kind.index >= firstchange else location >= firstchange
  }

  function Cleared(table: map<string, Entry>, firstchange: int, location: int): map<string, Entry> {
    map name | name in table && !Goes(table[name], firstchange, location) :: table[name]
  }

  function MarkedChain(chain: seq<Link>, builtins: bool): (t: seq<Link>)
    ensures |t| == |chain|
    ensures forall k :: 0 <= k < |t| ==> t[k] == Link(chain[k].name, Marked(chain[k].entry, builtins))
  {
    if chain == [] then []
    else [Link(chain[0].name, Marked(chain[0].entry, builtins))] + MarkedChain(chain[1..], builtins)
  }

  function ClearedChain(chain: seq<Link>, firstchange: int, location: int): seq<Link> {
    if chain == [] then []
    else (if Goes(chain[0].entry, firstchange, location) then [] else [chain[0]]) +
         ClearedChain(chain[1..], firstchange, location)
  }

  // The inner loop of hashcd()
  method MarkLinks(links: seq<Link>, builtins: bool) returns (chain: seq<Link>)
    ensures chain == MarkedChain(links, builtins)
  {
    ghost var goal := MarkedChain(links, builtins);
    hide MarkedChain;
    chain := links;
    var k := 0;
    while k < |chain|
      invariant 0 <= k <= |chain| == |links|
      invariant forall j :: 0 <= j < k ==> chain[j] == goal[j]
      invariant forall j :: k <= j < |chain| ==> chain[j] == links[j]
    {
      if chain[k].entry.kind.Normal? || builtins {
        chain := chain[k := Link(chain[k].name, chain[k].entry.(rehash := true))];
      }
      k := k + 1;
    }
  }

  // The inner loop of clearcmdentry()
  method ClearLinks(links: seq<Link>, firstchange: int, location: int) returns (chain: seq<Link>)
    ensures chain == ClearedChain(links, firstchange, location)
  {
    chain := links;
    var k := 0;
    while k < |chain|
      invariant 0 <= k <= |chain|
      invariant chain[..k] + ClearedChain(chain[k..], firstchange, location) == ClearedChain(links, firstchange, location)
      decreases |chain| - k
    {
      assert chain[k..][1..] == chain[k + 1..];
      if Goes(chain[k].entry, firstchange, location) {
        ghost var was := chain;
        chain := chain[..k] + chain[k + 1..];
        assert chain[k..] == was[k + 1..] && chain[..k] == was[..k];
      } else {
        k := k + 1;
      }
    }
    assert chain[..k] == chain;
  }

  lemma {:induction false} MarkChain(chain: seq<Link>, b: nat, table: map<string, Entry>, builtins: bool)
    requires ChainOf(chain, b, table)
    ensures ChainOf(MarkedChain(chain, builtins), b, AllMarked(table, builtins))
  {
    var t := MarkedChain(chain, builtins);
    forall name | name in table && Bucket(name) == b ensures InChain(t, name) {
      var k :| 0 <= k < |chain| && chain[k].name == name;
      assert t[k].name == name;
    }
  }

  lemma {:induction false} ClearedMembers(chain: seq<Link>, firstchange: int, location: int, l: Link)
    ensures l in ClearedChain(chain, firstchange, location) <==> l in chain && !Goes(l.entry, firstchange, location)
  {
    if chain != [] {
      ClearedMembers(chain[1..], firstchange, location, l);
      assert chain == [chain[0]] + chain[1..];
    }
  }

  lemma {:induction false} ClearedDistinct(chain: seq<Link>, firstchange: int, location: int)
    requires DistinctNames(chain)
    ensures DistinctNames(ClearedChain(chain, firstchange, location))
  {
    if chain != [] {
      ClearedDistinct(chain[1..], firstchange, location);
      var rest := ClearedChain(chain[1..], firstchange, location);
      forall k | 0 <= k < |rest| ensures rest[k].name != chain[0].name {
        ClearedMembers(chain[1..], firstchange, location, rest[k]);
        var j :| 0 <= j < |chain[1..]| && chain[1..][j] == rest[k];
        assert chain[j + 1] == rest[k];
      }
    }
  }

  lemma {:induction false} ClearChain(chain: seq<Link>, b: nat, table: map<string, Entry>, firstchange: int, location: int)
    requires ChainOf(chain, b, table)
    ensures ChainOf(ClearedChain(chain, firstchange, location), b, Cleared(table, firstchange, location))
  {
    var t, now := ClearedChain(chain, firstchange, location), Cleared(table, firstchange, location);
    ClearedDistinct(chain, firstchange, location);
    forall k | 0 <= k < |t| ensures Bucket(t[k].name) == b && t[k].name in now && now[t[k].name] == t[k].entry {
      ClearedMembers(chain, firstchange, location, t[k]);
      var j :| 0 <= j < |chain| && chain[j] == t[k];
    }
    forall name | name in now && Bucket(name) == b ensures InChain(t, name) {
      var k :| 0 <= k < |chain| && chain[k].name == name;
      ClearedMembers(chain, firstchange, location, chain[k]);
      var j :| 0 <= j < |t| && t[j] == chain[k];
      assert t[j].name == name;
    }
  }
}
