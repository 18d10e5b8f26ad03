/** The chained hash table behind the mapping of BIOS disk numbers, and the search for unique signatures. */
module BiosDisks {
  import opened Words

  const HASH_TABLE_SIZE := 17

  class DiskMapEntry {
    const key: nat
    const diskname: string
    var next: DiskMapEntry?

    constructor (key: nat, diskname: string)
      ensures this.key == key && this.diskname == diskname && next == null
    {
      this.key, this.diskname, next := key, diskname, null;
    }
  }

  /** The list that starts at `head` runs through exactly these entries. */
  ghost predicate Linked(head: DiskMapEntry?, nodes: seq<DiskMapEntry>)
    reads nodes
    decreases |nodes|
  {
    if nodes == [] then head == null else head == nodes[0] && Linked(nodes[0].next, nodes[1..])
  }

  /** The first entry of a chain with a key. */
  ghost function FirstMatch(nodes: seq<DiskMapEntry>, key: nat): (r: Option<string>)
  {
    if nodes == [] then None
    else if nodes[0].key == key then Some(nodes[0].diskname)
    else FirstMatch(nodes[1..], key)
  }

  /** What the table stands for: the last name added under each number. */
  ghost function Stored(names: map<nat, string>, key: nat): (r: Option<string>) {
    if key in names then Some(names[key]) else None
  }

  class DiskMapTable {
    const table: array<DiskMapEntry?>
    ghost var chains: seq<seq<DiskMapEntry>>
    ghost var names: map<nat, string>

    ghost var nodes: set<DiskMapEntry>

    ghost predicate Valid()
      reads this, table, nodes
    {
      && table.Length > 0 && |chains| == table.Length
      && (forall c, k :: 0 <= c < |chains| && 0 <= k < |chains[c]| ==> chains[c][k] in nodes)
      && (forall c :: 0 <= c < |chains| ==> Linked(table[c], chains[c]))
      && (forall key: nat :: FirstMatch(chains[key % table.Length], key) == Stored(names, key))
    }

    /** initializeHashTable. */
    constructor (size: nat)
      requires size > 0
      ensures Valid() && names == map[] && fresh(table) && nodes == {}
    {
      table := new DiskMapEntry?[size](i => null);
      chains := seq(size, i => []);
      names := map[];
      nodes := {};
    }

    /** lookupHashItem. */
    method Lookup(itemKey: nat) returns (r: Option<string>)
      requires Valid()
      ensures r == Stored(names, itemKey)
    {
      var index := itemKey % table.Length;
      var hashItem := table[index];
      ghost var rest := chains[index];
      while hashItem != null && hashItem.key != itemKey
        invariant Linked(hashItem, rest)
        invariant FirstMatch(rest, itemKey) == FirstMatch(chains[index], itemKey)
        decreases |rest|
      {
        rest := rest[1..];
        hashItem := hashItem.next;
      }
      r := if hashItem == null then None else Some(hashItem.diskname);
    }

    /** addToHashTable: a new entry goes to the front of its chain. */
    method Add(itemKey: nat, diskName: string)
      requires Valid()
      modifies this, table
      ensures Valid() && names == old(names)[itemKey := diskName]
      ensures fresh(nodes - old(nodes))
    {
      var item := new DiskMapEntry(itemKey, diskName);
      var index := itemKey % table.Length;
      ghost var before := chains[index];
      if table[index] == null {
        table[index] := item;
      } else {
        item.next := table[index];
        table[index] := item;
      }
      chains := chains[index := [item] + before];
      names := names[itemKey := diskName];
      nodes := nodes + {item};
      assert ([item] + before)[1..] == before;
      forall c | 0 <= c < |chains|
        ensures Linked(table[c], chains[c])
      {
        assert old(Linked(table[c], chains[c]));
      }
      forall key: nat
        ensures FirstMatch(chains[key % table.Length], key) == Stored(names, key)
      {
        assert FirstMatch(old(chains)[key % table.Length], key) == Stored(old(names), key);
      }
    }
  }

  // ---------- unique signatures ----------

  datatype Signature = Signature(value: nat) | NoMedium | Unreadable

  datatype Disk = Disk(device: Option<string>, signature: Signature)

  /** One directory of the EDD tree: the BIOS number and the signature it reports, if that can be read. */
  datatype Edd = Edd(biosNum: nat, mbrSig: Option<nat>)

  predicate Carries(d: Disk, sig: nat) {
    d.device.Some? && d.signature == Signature(sig)
  }

  /** Disk `k` carries the signature and no other disk does. */
  predicate OnlyCarrier(disks: seq<Disk>, sig: nat, k: int) {
    0 <= k < |disks| && Carries(disks[k], sig) && forall j :: 0 <= j < |disks| && Carries(disks[j], sig) ==> j == k
  }

  /** Reading this disk ends the search; a disk without medium is passed over. */
  predicate Blocks(d: Disk) {
    d.device.Some? && d.signature.Unreadable?
  }

  /** No unreadable disk stands before the second match. */
  ghost predicate Settled(disks: seq<Disk>, sig: nat) {
    forall k :: 0 <= k < |disks| && Blocks(disks[k]) ==>
      exists i, j :: 0 <= i < j < k && Carries(disks[i], sig) && Carries(disks[j], sig)
  }

  /**
   * The matching loop, which stops at the second match: the device that is found is the only one with the signature,
   * and nothing is found when no device or more than one carries it.
   */
  method FindUnique(disks: seq<Disk>, mbrSig: nat) returns (ok: bool, found: Option<string>)
    ensures ok <==> Settled(disks, mbrSig)
    ensures ok ==> forall name ::
      found == Some(name) <==>
        exists k :: 0 <= k < |disks| && disks[k] == Disk(Some(name), Signature(mbrSig))
          && forall j :: 0 <= j < |disks| && disks[j].device.Some? && disks[j].signature == Signature(mbrSig) ==> j == k
  {
    var k, i, foundDisk := 0, 0, "";
    ghost var first, second := 0, 0;
    while k < |disks| && i < 2
      invariant 0 <= k <= |disks| && 0 <= i <= 2
      invariant i == 0 ==> forall j :: 0 <= j < k ==> !Carries(disks[j], mbrSig)
      invariant i >= 1 ==> 0 <= first < k && Carries(disks[first], mbrSig)
      invariant i == 1 ==> disks[first].device == Some(foundDisk)
      invariant i == 1 ==> forall j :: 0 <= j < k && Carries(disks[j], mbrSig) ==> j == first
      invariant i == 2 ==> first < second < k && Carries(disks[second], mbrSig)
      invariant forall j :: 0 <= j < k ==> !Blocks(disks[j])
    {
      if disks[k].device.Some? {
        if disks[k].signature.Unreadable? {
          assert Blocks(disks[k]);
          return false, None;
        }
        if disks[k].signature == Signature(mbrSig) {
          foundDisk := disks[k].device.value;
          if i == 0 {
            first := k;
          } else {
            second := k;
          }
          i := i + 1;
        }
      }
      k := k + 1;
    }
    assert i == 2 ==> first < second < k && Carries(disks[first], mbrSig) && Carries(disks[second], mbrSig);
    ok, found := true, if i == 1 then Some(foundDisk) else None;
  }

  /** One directory of the EDD tree adds a name: that of the only disk with its signature. */
  ghost predicate Adds(disks: seq<Disk>, e: Edd, name: string) {
    e.mbrSig.Some? && exists k :: OnlyCarrier(disks, e.mbrSig.value, k) && disks[k].device == Some(name)
  }

  ghost predicate AddsNothing(disks: seq<Disk>, e: Edd) {
    forall name :: !Adds(disks, e, name)
  }

  /** `name` was added under `num` and not replaced by a later entry. */
  ghost predicate LastAdded(disks: seq<Disk>, edds: seq<Edd>, num: nat, name: string)
  {
    exists i :: 0 <= i < |edds| && edds[i].biosNum == num && Adds(disks, edds[i], name)
      && forall j :: i < j < |edds| && edds[j].biosNum == num ==> AddsNothing(disks, edds[j])
  }

  /** A number is in the table exactly when some entry for it has a signature that precisely one disk carries. */
  ghost predicate Reflects(disks: seq<Disk>, edds: seq<Edd>, names: map<nat, string>)
  {
    forall num, name :: (num in names && names[num] == name) <==> LastAdded(disks, edds, num, name)
  }

  lemma {:induction false} ReflectsStep(disks: seq<Disk>, edds: seq<Edd>, n: nat, names: map<nat, string>,
                                        a: Option<string>)
    requires n < |edds| && Reflects(disks, edds[..n], names)
    requires forall name :: Adds(disks, edds[n], name) <==> a == Some(name)
    ensures Reflects(disks, edds[..n + 1], if a.Some? then names[edds[n].biosNum := a.value] else names)
  {
    hide Adds;
    var e := edds[n];
    var names' := if a.Some? then names[e.biosNum := a.value] else names;
    var before, now := edds[..n], edds[..n + 1];
    assert now == before + [e];
    forall num, name
      ensures (num in names' && names'[num] == name) <==> LastAdded(disks, now, num, name)
    {
      if a.Some? && num == e.biosNum {
        assert now[n] == e;
        if LastAdded(disks, now, num, name) {
          var i :| 0 <= i < |now| && now[i].biosNum == num && Adds(disks, now[i], name)
            && forall j :: i < j < |now| && now[j].biosNum == num ==> AddsNothing(disks, now[j]);
          assert i == n;
        }
      } else {
        assert (num in names' && names'[num] == name) <==> LastAdded(disks, before, num, name);
        if LastAdded(disks, before, num, name) {
          var i :| 0 <= i < |before| && before[i].biosNum == num && Adds(disks, before[i], name)
            && forall j :: i < j < |before| && before[j].biosNum == num ==> AddsNothing(disks, before[j]);
          assert now[i] == before[i];
        }
        if LastAdded(disks, now, num, name) {
          var i :| 0 <= i < |now| && now[i].biosNum == num && Adds(disks, now[i], name)
            && forall j :: i < j < |now| && now[j].biosNum == num ==> AddsNothing(disks, now[j]);
          assert i < n && before[i] == now[i];
          assert forall j :: i < j < |before| ==> now[j] == before[j];
        }
      }
    }
  }

  lemma {:induction false} FoundIsAdded(disks: seq<Disk>, e: Edd, sig: nat, found: Option<string>)
    requires e.mbrSig == Some(sig)
    requires forall name ::
      found == Some(name) <==>
        exists k :: 0 <= k < |disks| && disks[k] == Disk(Some(name), Signature(sig))
          && forall j :: 0 <= j < |disks| && disks[j].device.Some? && disks[j].signature == Signature(sig) ==> j == k
    ensures forall name :: Adds(disks, e, name) <==> found == Some(name)
  {
    forall name
      ensures Adds(disks, e, name) <==> found == Some(name)
    {
      if Adds(disks, e, name) {
        var k :| OnlyCarrier(disks, sig, k) && disks[k].device == Some(name);
        assert disks[k] == Disk(Some(name), Signature(sig));
        assert forall j :: 0 <= j < |disks| && Carries(disks[j], sig) ==> j == k;
      }
      if found == Some(name) {
        var k :| 0 <= k < |disks| && disks[k] == Disk(Some(name), Signature(sig))
          && forall j :: 0 <= j < |disks| && disks[j].device.Some? && disks[j].signature == Signature(sig) ==> j == k;
        assert OnlyCarrier(disks, sig, k);
      }
    }
  }

  /** Entry `i` is the only one for its number. */
  ghost predicate OnlyEntry(edds: seq<Edd>, i: nat) {
    i < |edds| && forall j :: 0 <= j < |edds| && edds[j].biosNum == edds[i].biosNum ==> j == i
  }

  /** A number whose signature one disk alone carries is mapped to that disk. */
  lemma {:induction false} MappedToUnique(disks: seq<Disk>, edds: seq<Edd>, names: map<nat, string>, i: nat, sig: nat,
                                          k: nat)
    requires Reflects(disks, edds, names) && OnlyEntry(edds, i) && edds[i].mbrSig == Some(sig)
    requires k < |disks| && disks[k].device.Some? && disks[k].signature == Signature(sig)
    requires forall j :: 0 <= j < |disks| && j != k && disks[j].device.Some? ==> disks[j].signature != Signature(sig)
    ensures edds[i].biosNum in names && Some(names[edds[i].biosNum]) == disks[k].device
  {
    assert OnlyCarrier(disks, sig, k);
    assert Adds(disks, edds[i], disks[k].device.value);
    assert LastAdded(disks, edds, edds[i].biosNum, disks[k].device.value);
  }

  /** A number whose signature two disks carry, or none, is not mapped. */
  lemma {:induction false} NotMapped(disks: seq<Disk>, edds: seq<Edd>, names: map<nat, string>, i: nat, sig: nat)
    requires Reflects(disks, edds, names) && OnlyEntry(edds, i) && edds[i].mbrSig == Some(sig)
    requires forall k :: 0 <= k < |disks| && disks[k].device.Some? && disks[k].signature == Signature(sig) ==>
      exists j :: 0 <= j < |disks| && j != k && disks[j].device.Some? && disks[j].signature == Signature(sig)
    ensures edds[i].biosNum !in names
  {
    assert forall k :: !OnlyCarrier(disks, sig, k);
    assert AddsNothing(disks, edds[i]);
    var num := edds[i].biosNum;
    assert !LastAdded(disks, edds, num, if num in names then names[num] else "");
  }

  /** mapBiosDisks. */
  method MapBiosDisks(disks: seq<Disk>, edds: seq<Edd>) returns (ok: bool, t: DiskMapTable)
    ensures t.Valid() && fresh(t)
    ensures ok <==> forall i :: 0 <= i < |edds| && edds[i].mbrSig.Some? ==> Settled(disks, edds[i].mbrSig.value)
    ensures ok ==> Reflects(disks, edds, t.names)
  {
    hide Reflects, Settled;
    t := new DiskMapTable(HASH_TABLE_SIZE);
    NothingReflected(disks, edds);
    var n := 0;
    while n < |edds|
      invariant 0 <= n <= |edds| && t.Valid() && fresh(t) && fresh(t.table)
      invariant Reflects(disks, edds[..n], t.names)
      invariant forall i :: 0 <= i < n && edds[i].mbrSig.Some? ==> Settled(disks, edds[i].mbrSig.value)
    {
      if edds[n].mbrSig.None? {
        ReflectsStep(disks, edds, n, t.names, None);
      } else {
        var read, found := FindUnique(disks, edds[n].mbrSig.value);
        if !read {
          return false, t;
        }
        FoundIsAdded(disks, edds[n], edds[n].mbrSig.value, found);
        ReflectsStep(disks, edds, n, t.names, found);
        if found.Some? {
          t.Add(edds[n].biosNum, found.value);
        }
      }
      n := n + 1;
    }
    assert edds[..n] == edds;
    ok := true;
  }

  lemma {:induction false} NothingReflected(disks: seq<Disk>, edds: seq<Edd>)
    ensures Reflects(disks, edds[..0], map[])
  {
  }
}
