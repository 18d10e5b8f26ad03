/** Dependency-ordered removal of device maps. */
module DeviceMaps {

  type Dev = nat

  /** The device-mapper state: which maps exist, and which devices each one is built on. */
  class DeviceMapper {
    const deps: Dev -> seq<Dev>
    var live: set<Dev>

    constructor (deps: Dev -> seq<Dev>, live: set<Dev>)
      ensures this.deps == deps && this.live == live
    {
      this.deps, this.live := deps, live;
    }

    /** dm.maps(): the existing maps in some order. */
    method List() returns (mlist: seq<Dev>)
      ensures forall d :: d in mlist <==> d in live
    {
      mlist := [];
      var rest := live;
      while rest != {}
        invariant rest <= live
        invariant forall d :: d in mlist <==> d in live - rest
      {
        var d :| d in rest;
        mlist, rest := mlist + [d], rest - {d};
      }
    }

    /** map.remove(): the kernel refuses a map that another map still uses; a map already gone is left alone. */
    method Remove(d: Dev)
      requires d in live ==> forall m :: m in live ==> d !in deps(m)
      modifies this
      ensures live == old(live) - {d}
    {
      live := live - {d};
    }

    /** DeviceMaps(): for every map in use, the maps built on it. */
    method Dependents() returns (maps: map<Dev, seq<Dev>>)
      ensures forall d, m :: Lists(maps, d, m) <==> m in live && d in live && d in deps(m)
      ensures forall d :: d in maps ==> d in live
    {
      var devs := List();
      maps := map[];
      var i := 0;
      while i < |devs|
        invariant 0 <= i <= |devs|
        invariant forall d :: d in maps ==> d in devs
        invariant forall d, m :: Lists(maps, d, m) <==> m in devs[..i] && d in devs && d in deps(m)
      {
        ghost var seen := devs[..i];
        maps := Enter(maps, devs[i], devs);
        assert devs[..i + 1] == seen + [devs[i]];
        i := i + 1;
      }
      assert devs[..i] == devs;
    }

    /** The map `m` is listed under every existing map it is built on. */
    method Enter(maps: map<Dev, seq<Dev>>, m: Dev, devs: seq<Dev>) returns (maps': map<Dev, seq<Dev>>)
      requires forall d :: d in maps ==> d in devs
      ensures forall d :: d in maps' ==> d in devs
      ensures forall d, x :: Lists(maps', d, x) <==> Lists(maps, d, x) || (x == m && d in devs && d in deps(m))
    {
      var mdeps := deps(m);
      maps' := maps;
      var j := 0;
      while j < |mdeps|
        invariant 0 <= j <= |mdeps|
        invariant forall d :: d in maps' ==> d in devs
        invariant forall d, x :: Lists(maps', d, x) <==> Lists(maps, d, x) || (x == m && d in devs && d in mdeps[..j])
      {
        var key := mdeps[j];
        ghost var seen, was := mdeps[..j], maps';
        if key in devs {
          var before := if key in maps' then maps'[key] else [];
          maps' := maps'[key := before + [m]];
          assert forall d, x :: Lists(maps', d, x) <==> Lists(was, d, x) || (d == key && x == m);
        }
        assert mdeps[..j + 1] == seen + [key];
        assert forall d :: d in mdeps[..j + 1] <==> d in seen || d == key;
        j := j + 1;
      }
      assert mdeps[..j] == mdeps;
    }
  }

  predicate Lists(maps: map<Dev, seq<Dev>>, d: Dev, m: Dev) {
    d in maps && m in maps[d]
  }

  // ---------- dependents ----------

  /** No map is built on itself, directly or not: a map ranks below everything it is built on. */
  ghost predicate Acyclic(deps: Dev -> seq<Dev>, rank: Dev -> nat) {
    forall m, d :: d in deps(m) ==> rank(m) < rank(d)
  }

  /** `m` is `d` or is built, through live maps, on `d`. */
  ghost predicate BuiltOn(deps: Dev -> seq<Dev>, rank: Dev -> nat, live: set<Dev>, m: Dev, d: Dev)
    requires Acyclic(deps, rank)
    decreases rank(d)
  {
    m == d || exists y :: y in live && d in deps(y) && BuiltOn(deps, rank, live, m, y)
  }

  /** The map and everything built on it. */
  ghost function Stack(deps: Dev -> seq<Dev>, rank: Dev -> nat, live: set<Dev>, d: Dev): (s: set<Dev>)
    requires Acyclic(deps, rank)
  {
    set m | m in live && BuiltOn(deps, rank, live, m, d)
  }

  /** Whatever is built on a member belongs to the set. */
  ghost predicate Closed(deps: Dev -> seq<Dev>, live: set<Dev>, s: set<Dev>) {
    forall m, d :: m in live && d in s && d in deps(m) ==> m in s
  }

  lemma {:induction false} BuiltOnTransitive(deps: Dev -> seq<Dev>, rank: Dev -> nat, live: set<Dev>, m: Dev, y: Dev,
                                             d: Dev)
    requires Acyclic(deps, rank) && y in live && BuiltOn(deps, rank, live, y, d)
    requires m in live && y in deps(m)
    ensures BuiltOn(deps, rank, live, m, d)
    decreases rank(d)
  {
    if y == d {
      assert BuiltOn(deps, rank, live, m, m);
    } else {
      var z :| z in live && d in deps(z) && BuiltOn(deps, rank, live, y, z);
      BuiltOnTransitive(deps, rank, live, m, y, z);
    }
  }

  lemma {:induction false} StackClosed(deps: Dev -> seq<Dev>, rank: Dev -> nat, live: set<Dev>, d: Dev)
    requires Acyclic(deps, rank)
    ensures Closed(deps, live, Stack(deps, rank, live, d))
  {
    forall m, y | m in live && y in Stack(deps, rank, live, d) && y in deps(m)
      ensures m in Stack(deps, rank, live, d)
    {
      BuiltOnTransitive(deps, rank, live, m, y, d);
    }
  }

  /** A closed set that holds a map holds everything built on it. */
  lemma {:induction false} ClosedHoldsStack(deps: Dev -> seq<Dev>, rank: Dev -> nat, live: set<Dev>, s: set<Dev>,
                                            m: Dev, d: Dev)
    requires Acyclic(deps, rank) && Closed(deps, live, s) && d in s && BuiltOn(deps, rank, live, m, d)
    ensures m in s
    decreases rank(d)
  {
    if m != d {
      var y :| y in live && d in deps(y) && BuiltOn(deps, rank, live, m, y);
      ClosedHoldsStack(deps, rank, live, s, m, y);
    }
  }

  /** Removing a closed set does not change what the remaining maps are built on. */
  lemma {:induction false} BuiltOnRest(deps: Dev -> seq<Dev>, rank: Dev -> nat, live: set<Dev>, s: set<Dev>, m: Dev,
                                       d: Dev)
    requires Acyclic(deps, rank) && Closed(deps, live, s) && m in live && m !in s
    ensures BuiltOn(deps, rank, live - s, m, d) <==> BuiltOn(deps, rank, live, m, d)
    decreases rank(d)
  {
    if m != d {
      forall y | y in live && d in deps(y)
        ensures BuiltOn(deps, rank, live - s, m, y) <==> BuiltOn(deps, rank, live, m, y)
        ensures BuiltOn(deps, rank, live, m, y) ==> y !in s
      {
        BuiltOnRest(deps, rank, live, s, m, y);
        if BuiltOn(deps, rank, live, m, y) && y in s {
          ClosedHoldsStack(deps, rank, live, s, m, y);
        }
      }
    }
  }

  /** One more dependent has been taken down with everything on it. */
  lemma {:induction false} TakenDown(deps: Dev -> seq<Dev>, rank: Dev -> nat, live: set<Dev>, s: set<Dev>, d: Dev)
    requires Acyclic(deps, rank) && Closed(deps, live, s) && s <= live
    ensures
      var now := live - s;
      var down := if d in now then now - Stack(deps, rank, now, d) else now;
      var s' := s + (if d in live then Stack(deps, rank, live, d) else {});
      down == live - s' && Closed(deps, live, s') && s' <= live
  {
    var now := live - s;
    StackClosed(deps, rank, live, d);
    if d in live {
      forall m | m in live
        ensures m in (if d in now then now - Stack(deps, rank, now, d) else now)
           <==> m in live - (s + Stack(deps, rank, live, d))
      {
        if m !in s {
          BuiltOnRest(deps, rank, live, s, m, d);
          if d in s && BuiltOn(deps, rank, live, m, d) {
            ClosedHoldsStack(deps, rank, live, s, m, d);
          }
        }
      }
    }
  }

  /** The stacks of several maps together. */
  ghost function Stacks(deps: Dev -> seq<Dev>, rank: Dev -> nat, live: set<Dev>, ds: seq<Dev>): (s: set<Dev>)
    requires Acyclic(deps, rank)
  {
    if ds == [] then {} else Stacks(deps, rank, live, ds[..|ds| - 1]) + Stack(deps, rank, live, ds[|ds| - 1])
  }

  lemma {:induction false} StacksHold(deps: Dev -> seq<Dev>, rank: Dev -> nat, live: set<Dev>, ds: seq<Dev>, m: Dev)
    requires Acyclic(deps, rank)
    ensures m in Stacks(deps, rank, live, ds) <==> exists i :: 0 <= i < |ds| && m in Stack(deps, rank, live, ds[i])
  {
    if ds != [] {
      StacksHold(deps, rank, live, ds[..|ds| - 1], m);
      if i :| 0 <= i < |ds| && m in Stack(deps, rank, live, ds[i]) {
        assert i < |ds| - 1 ==> ds[..|ds| - 1][i] == ds[i];
      }
    }
  }

  /** A map's stack is the map and the stacks of the maps directly on it. */
  lemma {:induction false} StackOfStacks(deps: Dev -> seq<Dev>, rank: Dev -> nat, live: set<Dev>, d: Dev, ds: seq<Dev>)
    requires Acyclic(deps, rank) && d in live
    requires forall m :: m in ds <==> m in live && d in deps(m)
    ensures Stack(deps, rank, live, d) == Stacks(deps, rank, live, ds) + {d}
    ensures forall m :: m in live - Stacks(deps, rank, live, ds) ==> d !in deps(m)
  {
    forall m | m in live
      ensures m in Stack(deps, rank, live, d) <==> m in Stacks(deps, rank, live, ds) + {d}
    {
      StacksHold(deps, rank, live, ds, m);
      if m != d && BuiltOn(deps, rank, live, m, d) {
        var y :| y in live && d in deps(y) && BuiltOn(deps, rank, live, m, y);
        assert y in ds;
        var i :| 0 <= i < |ds| && ds[i] == y;
      }
    }
    forall m | m in live && d in deps(m)
      ensures m in Stacks(deps, rank, live, ds)
    {
      assert m in ds;
      var i :| 0 <= i < |ds| && ds[i] == m;
      StacksHold(deps, rank, live, ds, m);
    }
    forall m | m in Stacks(deps, rank, live, ds)
      ensures m in live
    {
      StacksHold(deps, rank, live, ds, m);
    }
  }

  /** removeDeviceMap: the map and everything built on it are gone, each removed when nothing used it any more. */
  method RemoveDeviceMap(dm: DeviceMapper, d: Dev, ghost rank: Dev -> nat)
    requires Acyclic(dm.deps, rank)
    modifies dm
    ensures dm.live == old(dm.live) - if d in old(dm.live) then Stack(dm.deps, rank, old(dm.live), d) else {}
    decreases rank(d), 1
  {
    hide BuiltOn, Stack;
    ghost var all := dm.live;
    var maps := dm.Dependents();
    if d in maps {
      var ds := maps[d];
      assert forall m :: m in ds <==> Lists(maps, d, m);
      RemoveEach(dm, d, ds, rank);
      StackOfStacks(dm.deps, rank, all, d, ds);
    } else if d in dm.live {
      assert forall m :: !Lists(maps, d, m);
      StackOfStacks(dm.deps, rank, all, d, []);
    }
    dm.Remove(d);
  }

  /** The loop over the maps directly on `d`; some of them may already have gone with an earlier one. */
  method RemoveEach(dm: DeviceMapper, ghost d: Dev, ds: seq<Dev>, ghost rank: Dev -> nat)
    requires Acyclic(dm.deps, rank) && forall m :: m in ds ==> m in dm.live && d in dm.deps(m)
    modifies dm
    ensures dm.live == old(dm.live) - Stacks(dm.deps, rank, old(dm.live), ds)
    decreases rank(d), 0
  {
    hide BuiltOn, Stack;
    ghost var all := dm.live;
    var i := 0;
    while i < |ds|
      invariant 0 <= i <= |ds|
      invariant dm.live == all - Stacks(dm.deps, rank, all, ds[..i])
      invariant Closed(dm.deps, all, Stacks(dm.deps, rank, all, ds[..i])) && Stacks(dm.deps, rank, all, ds[..i]) <= all
    {
      assert ds[i] in ds;
      TakenDown(dm.deps, rank, all, Stacks(dm.deps, rank, all, ds[..i]), ds[i]);
      assert ds[..i + 1][..i] == ds[..i];
      RemoveDeviceMap(dm, ds[i], rank);
      i := i + 1;
    }
    assert ds[..i] == ds;
  }
}
