/**
  The address directory: `address_map` (a bidirectional map from local
  descriptors to global addresses) together with `address_count`.
  The bidirectional map is two maps kept in step.
*/
module Directory {
  import opened Types

  datatype Directory = Directory(byId: map<int, u64>, byAddr: map<u64, int>, count: int)

  /** The result of `add_address`: the updated directory and the descriptor. */
  datatype Registered = Registered(dir: Directory, id: int)

  const Empty := Directory(map[], map[], 0)

  /**
    The directory is a bijection between the descriptors 1..count and the
    addresses seen so far.
  */
  ghost predicate Valid(d: Directory)
  {
    && d.count >= 0
    && (forall i :: i in d.byId <==> 1 <= i <= d.count)
    && (forall i :: i in d.byId ==> d.byId[i] in d.byAddr && d.byAddr[d.byId[i]] == i)
    && (forall a :: a in d.byAddr ==> d.byAddr[a] in d.byId && d.byId[d.byAddr[a]] == a)
  }

  /** Every address known to d is known to d' under the same descriptor. */
  ghost predicate KeepsAddresses(d: Directory, d': Directory)
  {
    forall a :: a in d.byAddr ==> a in d'.byAddr && d'.byAddr[a] == d.byAddr[a]
  }

  /** Every binding of d is still present, unchanged, in d'. */
  ghost predicate Extends(d: Directory, d': Directory)
  {
    && d.count <= d'.count
    && (forall i :: i in d.byId ==> i in d'.byId && d'.byId[i] == d.byId[i])
    && KeepsAddresses(d, d')
  }

  lemma ExtendsTransitive(d1: Directory, d2: Directory, d3: Directory)
    requires Extends(d1, d2) && Extends(d2, d3)
    ensures Extends(d1, d3)
  {
  }

  /**
    `add_address`: a known address keeps its descriptor and leaves the
    directory as it is; an unseen one is bound to `count + 1`.
  */
  function AddAddress(d: Directory, addr: u64): (r: Registered)
    ensures addr in r.dir.byAddr && r.dir.byAddr[addr] == r.id
    ensures Valid(d) ==> r.id in r.dir.byId && r.dir.byId[r.id] == addr
    ensures KeepsAddresses(d, r.dir)
    ensures addr in d.byAddr ==> r == Registered(d, d.byAddr[addr])
    ensures addr !in d.byAddr ==> r.id == d.count + 1 && r.dir.count == r.id
    ensures Valid(d) ==> Valid(r.dir) && Extends(d, r.dir)
    ensures Valid(d) && addr !in d.byAddr ==> r.id !in d.byId && r.dir.byId.Keys == d.byId.Keys + {r.id}
  {
    if addr in d.byAddr then
      Registered(d, d.byAddr[addr])
    else
      var id := d.count + 1;
      Registered(Directory(d.byId[id := addr], d.byAddr[addr := id], id), id)
  }

  /** Registering the same address twice returns the same descriptor and changes nothing more. */
  lemma AddAddressIdempotent(d: Directory, addr: u64)
    ensures var r := AddAddress(d, addr); AddAddress(r.dir, addr) == r
  {
  }

  /** In a valid directory distinct addresses never share a descriptor. */
  lemma DistinctAddressesDistinctIds(d: Directory, a: u64, b: u64)
    requires Valid(d)
    requires a != b
    ensures var r1 := AddAddress(d, a); var r2 := AddAddress(r1.dir, b); r1.id != r2.id
  {
  }
}
