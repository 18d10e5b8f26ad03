/** What a whole installation returns, and what it leaves on disk. */
module LinkOutcomes {
  import opened Words
  import opened FileTree
  import opened HardLinks
  import opened LinkRuns

  // ---------- the closing pass ----------

  /**
   * A group about which the closing pass has nothing to say: it has its data, and no link is left or no name is
   * waiting.
   */
  predicate Complete(base: Fs, xs: seq<Item>, key: Key) {
    var g, r := Group(xs, key), Stall(base, xs, key);
    FirstData(g) < |g| && (r == |g| || r == g[0].nlink)
  }

  /** Why the closing pass fails: a group without data, or one with a name that cannot be linked. */
  predicate Fault(base: Fs, xs: seq<Item>, key: Key, rc: int) {
    var g, r := Group(xs, key), Stall(base, xs, key);
    && !Complete(base, xs, key)
    && rc == (if r == |g| then CPIOERR_INTERNAL
              else if Dirs(base, xs, g[r].path) then CPIOERR_UNLINK_FAILED else CPIOERR_LINK_FAILED)
  }

  /** Each record in the list is the expected one of a group that occurs. */
  lemma {:induction false} RecordAt(base: Fs, xs: seq<Item>, links: seq<HardLink>, k: nat)
    requires LinksTrack(base, xs, links) && k < |links|
    ensures Group(xs, links[k].key) != [] && links[k] == RecordOf(base, xs, links[k].key)
  {
    hide Group, RecordOf;
    var i := FindLink(links, links[k].key);
    assert i == k;
  }

  /** With nothing waiting, linking again changes nothing. */
  lemma {:induction false} NothingWaiting(g: seq<Item>, fs: Fs)
    requires Fits(g, |g|) && FirstData(g) < |g|
    ensures LinkShape(ExpectedLink(g, |g|))
      && CreateLinks(fs, ExpectedLink(g, |g|), 0) == Some(Linking(0, fs, ExpectedLink(g, |g|)))
  {
    var li := ExpectedLink(g, |g|);
    assert forall k :: 0 <= k < |li.files| ==> !IsPending(li, k);
    NothingPending(fs, li, 0);
  }

  lemma {:induction false} NothingPending(fs: Fs, li: HardLink, i: nat)
    requires LinkShape(li) && i <= li.nlink && forall k :: i <= k < |li.files| ==> !IsPending(li, k)
    ensures CreateLinks(fs, li, i) == Some(Linking(0, fs, li))
    decreases li.nlink - i
  {
    if i < li.nlink {
      assert !IsPending(li, i);
      NothingPending(fs, li, i + 1);
    }
  }

  /** What the closing pass makes of one record. */
  lemma {:induction false} ClosesRecord(base: Fs, xs: seq<Item>, fs: Fs, key: Key)
    requires Group(xs, key) != [] && Fits(Group(xs, key), Stall(base, xs, key))
    requires Steady(base, xs) && FsTracks(base, xs, fs)
    ensures
      var g, r, li := Group(xs, key), Stall(base, xs, key), RecordOf(base, xs, key);
      && (li.createdPath == -1 <==> FirstData(g) == |g|)
      && (FirstData(g) == |g| ==> li.linksLeft != 0 && Fault(base, xs, key, CPIOERR_INTERNAL))
      && (FirstData(g) < |g| && li.linksLeft == 0 ==> Complete(base, xs, key))
      && (FirstData(g) < |g| && li.linksLeft != 0 && r == |g| ==>
            Complete(base, xs, key) && LinkShape(li) && CreateLinks(fs, li, 0) == Some(Linking(0, fs, li)))
      && (FirstData(g) < |g| && li.linksLeft != 0 && r < |g| ==>
            && LinkShape(li) && CreateLinks(fs, li, 0).Some?
            && Fault(base, xs, key, CreateLinks(fs, li, 0).value.rc)
            && CreateLinks(fs, li, 0).value.rc != 0 && CreateLinks(fs, li, 0).value.rc != CPIOERR_INTERNAL)
  {
    hide Group, FirstData, Stall, Dirs, CreateLinks, Steady, SlotContent;
    var g, r := Group(xs, key), Stall(base, xs, key);
    if FirstData(g) < |g| && r == |g| {
      NothingWaiting(g, fs);
    } else if FirstData(g) < |g| {
      StallFails(base, xs, fs, key);
    }
  }

  lemma {:induction false} ClosingFrom(base: Fs, xs: seq<Item>, st: State, k: nat)
    requires Tracks(base, xs, st) && Steady(base, xs) && k <= |st.links|
    ensures
      var r := ClosingPass(st.fs, st.links[k..]);
      && r.Some? && (r.value.0 == 0 || r.value.0 == CPIOERR_INTERNAL ==> r.value.1 == st.fs)
      && (r.value.0 == 0 <==> forall j :: k <= j < |st.links| ==> Complete(base, xs, st.links[j].key))
      && (r.value.0 != 0 ==> exists j :: k <= j < |st.links| && Fault(base, xs, st.links[j].key, r.value.0))
    decreases |st.links| - k
  {
    hide Group, LinksTrack, RunsOn, CreateLinks, RecordOf, Complete, FirstData, Stall, Fits, FsTracks, Steady;
    if k < |st.links| {
      var li := st.links[k];
      RecordAt(base, xs, st.links, k);
      GroupFits(base, xs, li.key);
      ClosesRecord(base, xs, st.fs, li.key);
      assert st.links[k..][1..] == st.links[k + 1..];
      ClosingFrom(base, xs, st, k + 1);
    }
  }

  /** Every group of the archive is complete. */
  ghost predicate AllComplete(base: Fs, xs: seq<Item>) {
    forall i :: 0 <= i < |xs| && Multi(xs[i]) ==> Complete(base, xs, xs[i].key)
  }

  /**
   * After the trailer: success exactly when every group is complete, and then the file system is as the loop left it.
   */
  lemma {:induction false} ClosingOutcome(base: Fs, xs: seq<Item>, st: State)
    requires Tracks(base, xs, st) && Steady(base, xs)
    ensures
      var r := ClosingPass(st.fs, st.links);
      && r.Some? && (r.value.0 == 0 <==> AllComplete(base, xs))
      && (r.value.0 == 0 || r.value.0 == CPIOERR_INTERNAL ==> r.value.1 == st.fs)
      && (r.value.0 != 0 ==> exists i :: 0 <= i < |xs| && Multi(xs[i]) && Fault(base, xs, xs[i].key, r.value.0))
  {
    hide Group, RunsOn, ClosingPass, Complete, Fault, RecordOf, FsTracks, Steady;
    ClosingFrom(base, xs, st, 0);
    assert st.links[0..] == st.links;
    forall j | 0 <= j < |st.links|
      ensures exists i :: 0 <= i < |xs| && Multi(xs[i]) && xs[i].key == st.links[j].key
    {
      RecordAt(base, xs, st.links, j);
      GroupEntry(xs, st.links[j].key, 0);
    }
    forall i | 0 <= i < |xs| && Multi(xs[i])
      ensures exists j :: 0 <= j < |st.links| && st.links[j].key == xs[i].key
    {
      var k := GroupHas(xs, xs[i]);
      var j := FindLink(st.links, xs[i].key);
      assert j < |st.links|;
    }
  }

  // ---------- names that can be linked at the trailer ----------

  /** The created file is there and every waiting name is ready for it, or no links are left. */
  ghost predicate CanClose(fs: Fs, li: HardLink) {
    li.linksLeft == 0
    || (LinkShape(li)
        && var c := li.files[li.createdPath].value;
        c in fs.names && !fs.IsDir(c) && AllReady(fs, li, 0, c))
  }

  /** The closing pass finds `p` waiting. */
  ghost predicate Awaits(links: seq<HardLink>, p: PathName) {
    exists k :: 0 <= k < |links| && links[k].linksLeft != 0 && Waits(links[k], 0, p)
  }

  /** Names that wait nowhere stay as they are. */
  ghost predicate OthersStay(fs: Fs, fs': Fs, links: seq<HardLink>)
  {
    && fs'.nodes == fs.nodes
    && forall p :: !Awaits(links, p) ==>
         (p in fs'.names <==> p in fs.names) && (p in fs.names ==> fs'.names[p] == fs.names[p])
  }

  /** `p` waits with one group only, whose created path waits with none. */
  ghost predicate WaitsOnce(links: seq<HardLink>, k: nat, p: PathName)
    requires k < |links|
  {
    && links[k].linksLeft != 0 && LinkShape(links[k]) && Waits(links[k], 0, p)
    && !Awaits(links, links[k].files[links[k].createdPath].value)
    && forall j :: 0 <= j < |links| && j != k ==> links[j].linksLeft == 0 || !Waits(links[j], 0, p)
  }

  /** Such a name comes to share the node of the created path. */
  ghost predicate WaitersLinked(fs: Fs, fs': Fs, links: seq<HardLink>)
  {
    forall k, p :: 0 <= k < |links| && WaitsOnce(links, k, p) ==>
      var c := links[k].files[links[k].createdPath].value;
      c in fs.names && p in fs'.names && fs'.names[p] == fs.names[c]
  }

  /** Linking the names of one group leaves the others able to close. */
  lemma {:induction false} CanCloseStays(fs: Fs, fs': Fs, li: HardLink, other: HardLink, c: PathName)
    requires fs.Valid() && c in fs.names && !fs.IsDir(c) && AllReady(fs, li, 0, c) && Relinked(fs, fs', li, 0, c)
    requires CanClose(fs, other)
    ensures fs'.Valid() && CanClose(fs', other)
  {
    hide Waits;
    forall q
      ensures fs'.IsDir(q) <==> fs.IsDir(q)
    {
      assert Waits(li, 0, q) ==> Ready(fs, q);
    }
    forall p
      ensures Ready(fs', p) <==> Ready(fs, p)
    {
    }
  }

  lemma {:induction false} RelinkedValid(fs: Fs, fs': Fs, li: HardLink, c: PathName)
    requires fs.Valid() && c in fs.names && Relinked(fs, fs', li, 0, c)
    ensures fs'.Valid()
  {
    hide Waits;
  }

  /** One record first, the others behind it. */
  lemma {:induction false} ClosedInTurn(fs: Fs, fs1: Fs, fs': Fs, links: seq<HardLink>)
    requires links != [] && links[0].linksLeft != 0 && LinkShape(links[0])
    requires
      var c := links[0].files[links[0].createdPath].value;
      c in fs.names && Relinked(fs, fs1, links[0], 0, c)
    requires OthersStay(fs1, fs', links[1..]) && WaitersLinked(fs1, fs', links[1..])
    ensures OthersStay(fs, fs', links) && WaitersLinked(fs, fs', links)
  {
    hide Waits;
    var tail := links[1..];
    forall p
      ensures Awaits(links, p) <==> Waits(links[0], 0, p) || Awaits(tail, p)
    {
      AwaitsHead(links, p);
    }
    forall k, p | 0 <= k < |links| && WaitsOnce(links, k, p)
      ensures
        var c := links[k].files[links[k].createdPath].value;
        c in fs.names && p in fs'.names && fs'.names[p] == fs.names[c]
    {
      if k == 0 {
        assert forall j :: 0 <= j < |tail| ==> tail[j] == links[j + 1];
        assert !Awaits(tail, p);
      } else {
        WaitsOnceTail(links, k, p);
        assert tail[k - 1] == links[k];
      }
    }
  }

  lemma {:induction false} AwaitsHead(links: seq<HardLink>, p: PathName)
    requires links != []
    ensures Awaits(links, p) <==> (links[0].linksLeft != 0 && Waits(links[0], 0, p)) || Awaits(links[1..], p)
  {
    hide Waits;
    var tail := links[1..];
    assert forall j :: 0 <= j < |tail| ==> tail[j] == links[j + 1];
    if Awaits(links, p) {
      var k :| 0 <= k < |links| && links[k].linksLeft != 0 && Waits(links[k], 0, p);
      assert k > 0 ==> tail[k - 1] == links[k];
    }
  }

  lemma {:induction false} WaitsOnceTail(links: seq<HardLink>, k: nat, p: PathName)
    requires 0 < k < |links| && WaitsOnce(links, k, p)
    ensures WaitsOnce(links[1..], k - 1, p)
  {
    hide Waits;
    var tail := links[1..];
    assert forall j :: 0 <= j < |tail| ==> tail[j] == links[j + 1];
    AwaitsHead(links, links[k].files[links[k].createdPath].value);
  }

  /** The closing pass links all waiting names, if each group has its file and its names are ready. */
  lemma {:induction false} ClosingLinks(fs: Fs, links: seq<HardLink>)
    requires fs.Valid() && Shapes(links) && forall k :: 0 <= k < |links| ==> CanClose(fs, links[k])
    ensures
      var r := ClosingPass(fs, links);
      r.Some? && r.value.0 == 0 && OthersStay(fs, r.value.1, links) && WaitersLinked(fs, r.value.1, links)
    decreases |links|
  {
    hide Waits, CreateLinks, Relinked, AllReady, OthersStay, WaitersLinked;
    if links == [] {
      NothingCloses(fs);
    } else if links[0].linksLeft == 0 {
      ClosingLinks(fs, links[1..]);
      SkippedRecord(fs, ClosingPass(fs, links[1..]).value.1, links);
    } else {
      var li := links[0];
      assert CanClose(fs, li);
      var c := li.files[li.createdPath].value;
      CreateLinksWorks(fs, li, 0);
      var fs1 := CreateLinks(fs, li, 0).value.fs;
      RelinkedValid(fs, fs1, li, c);
      forall k | 0 <= k < |links[1..]|
        ensures CanClose(fs1, links[1..][k])
      {
        CanCloseStays(fs, fs1, li, links[k + 1], c);
      }
      ClosingLinks(fs1, links[1..]);
      ClosedInTurn(fs, fs1, ClosingPass(fs1, links[1..]).value.1, links);
    }
  }

  lemma {:induction false} NothingCloses(fs: Fs)
    ensures OthersStay(fs, fs, []) && WaitersLinked(fs, fs, [])
  {
  }

  lemma {:induction false} SkippedRecord(fs: Fs, fs': Fs, links: seq<HardLink>)
    requires links != [] && links[0].linksLeft == 0
    requires OthersStay(fs, fs', links[1..]) && WaitersLinked(fs, fs', links[1..])
    ensures OthersStay(fs, fs', links) && WaitersLinked(fs, fs', links)
  {
    hide Waits;
    var tail := links[1..];
    forall p
      ensures Awaits(links, p) <==> Awaits(tail, p)
    {
      AwaitsHead(links, p);
    }
    forall k, p | 0 <= k < |links| && WaitsOnce(links, k, p)
      ensures
        var c := links[k].files[links[k].createdPath].value;
        c in fs.names && p in fs'.names && fs'.names[p] == fs.names[c]
    {
      WaitsOnceTail(links, k, p);
      assert tail[k - 1] == links[k];
    }
  }

  /** A whole installation, exactly. */
  lemma {:induction false} RunOutcome(fs: Fs, xs: seq<Item>)
    requires Tame(fs, xs) && fs.Valid()
    ensures
      var r := Install(State(fs, [], false), xs);
      && (r == Overrun <==> Overruns(fs, xs))
      && (GoesOn(r) <==> RunsOn(fs, xs) && AllComplete(fs, xs))
      && (RunsOn(fs, xs) && r.Went? && (r.rc == 0 || r.rc == CPIOERR_INTERNAL) ==> r.st.fs == Reference(fs, xs))
      && (RunsOn(fs, xs) && !AllComplete(fs, xs) ==>
            r.Went? && exists i :: 0 <= i < |xs| && Multi(xs[i]) && Fault(fs, xs, xs[i].key, r.rc))
  {
    hide InstallAll, ClosingPass, Group, RunsOn, Overruns, Tracks, Steady, SpelledOnce, Fault, Reference, AllComplete;
    var st := State(fs, [], false);
    RunExactly(st, xs);
    if RunsOn(fs, xs) {
      ClosingOutcome(fs, xs, InstallAll(st, xs).st);
      ClosedOutcome(InstallAll(st, xs).st);
    }
  }

  lemma {:induction false} ClosedOutcome(st: State)
    requires Shapes(st.links) && ClosingPass(st.fs, st.links).Some?
    ensures var r := ClosingPass(st.fs, st.links).value; Closed(st) == Went(r.0, st.(fs := r.1))
  {
  }

  // ---------- what is on disk ----------

  /** The paths whose names an entry of a run that goes on may change. */
  ghost predicate Touches(base: Fs, xs: seq<Item>, x: Item, p: PathName) {
    || (MakesDirs(xs, x) && IsLeading(p, x.path) && !Dirs(base, xs, p))
    || (Fails(base, xs, x) && p == StallPath(base, xs, x))
    || (Creates(xs, x) && p in Paths(Group(xs, x.key)))
    || ((MakesDirs(xs, x) || (Late(xs, x) && !Fails(base, xs, x))) && p == x.path)
  }

  lemma {:induction false} LinkAllFrame(fs: Fs, c: PathName, ps: set<PathName>, p: PathName)
    requires c in fs.names && p !in ps
    ensures Untouched(fs, LinkAll(fs, c, ps), p)
  {
    UntouchedItself(fs, p);
  }

  /** All other paths keep their node and its content. */
  lemma {:induction false} EnteredFrame(base: Fs, xs: seq<Item>, x: Item, fs: Fs, p: PathName)
    requires FsTracks(base, xs, fs) && SteadyStep(base, xs, x) && Accepts(base, xs, x) && !Touches(base, xs, x, p)
    ensures Untouched(fs, Entered(base, xs, fs, x), p)
  {
    hide Group, FirstData, Stall, Dirs, Harmless, GroundedBy, Untouched, NamesTrack, LinksAside, Full, Kinds, WayTo,
      LinkAll;
    UntouchedItself(fs, p);
    if MakesDirs(xs, x) {
      WayIsStraight(base, xs, x, fs);
      KindsOfWay(fs, x.path);
      var led := WayTo(fs, x.path);
      assert Untouched(fs, led, p);
      if !Multi(x) {
        OthersUntouched(led, x.path, OwnNode(x), p);
        UntouchedTransitive(fs, led, Entered(base, xs, fs, x), p);
      } else {
        var created := led.Create(x.path, Regular(x.data));
        OthersUntouched(led, x.path, Regular(x.data), p);
        UntouchedTransitive(fs, led, created, p);
        LinkAllFrame(created, x.path, Paths(Group(xs, x.key)), p);
        UntouchedTransitive(fs, created, Entered(base, xs, fs, x), p);
      }
    } else if Fails(base, xs, x) {
      OthersUntouched(fs, StallPath(base, xs, x), Fifo, p);
    } else if Late(xs, x) {
      var c := CreatedPath(Group(xs, x.key));
      if c in fs.names {
        LinkIsLinkAll(fs, c, x.path);
        LinkAllFrame(fs, c, {x.path}, p);
      }
    }
  }

  /** No entry behind the one at `i` touches `p`. */
  ghost predicate Lasts(base: Fs, xs: seq<Item>, i: int, p: PathName) {
    forall j :: 0 <= j < |xs| && i < j ==> !Touches(base, xs[..j], xs[j], p)
  }

  /** A path that no later entry touches keeps what it has. */
  lemma {:induction false} ReferenceFrame(base: Fs, xs: seq<Item>, n: nat, p: PathName)
    requires base.Valid() && RunsOn(base, xs) && Steady(base, xs) && n <= |xs| && Lasts(base, xs, n - 1, p)
    ensures Untouched(Reference(base, xs[..n]), Reference(base, xs), p)
    decreases |xs|
  {
    hide RunsOn, Steady, Touches, Entered, SteadyStep, Accepts, FsTracks, Untouched;
    if n == |xs| {
      assert xs[..n] == xs;
      UntouchedItself(Reference(base, xs), p);
    } else {
      var last := |xs| - 1;
      var before, x := xs[..last], xs[last];
      assert before + [x] == xs && before[..n] == xs[..n];
      RunsOnAppend(base, before, x);
      SteadyAppend(base, before, x);
      assert forall j :: 0 <= j < last ==> before[..j] == xs[..j] && before[j] == xs[j];
      ReferenceFrame(base, before, n, p);
      ReferenceTracks(base, before);
      EnteredFrame(base, before, x, Reference(base, before), p);
      UntouchedTransitive(Reference(base, xs[..n]), Reference(base, before), Reference(base, xs), p);
    }
  }

  /** What is known at the entry at `i` of a run that goes on. */
  lemma {:induction false} AtEntry(base: Fs, xs: seq<Item>, i: nat)
    requires base.Valid() && RunsOn(base, xs) && Steady(base, xs) && i < |xs|
    ensures RunsOn(base, xs[..i]) && Steady(base, xs[..i]) && RunsOn(base, xs[..i + 1]) && Steady(base, xs[..i + 1])
    ensures Accepts(base, xs[..i], xs[i]) && SteadyStep(base, xs[..i], xs[i])
    ensures FsTracks(base, xs[..i], Reference(base, xs[..i]))
      && FsTracks(base, xs[..i + 1], Reference(base, xs[..i + 1]))
    ensures Reference(base, xs[..i + 1]) == Entered(base, xs[..i], Reference(base, xs[..i]), xs[i])
    decreases |xs|
  {
    hide FsTracks, Entered, SteadyStep, Accepts;
    var last := |xs| - 1;
    var before, x := xs[..last], xs[last];
    assert before + [x] == xs;
    RunsOnAppend(base, before, x);
    SteadyAppend(base, before, x);
    if i == last {
      assert xs[..i + 1] == xs;
      ReferenceTracks(base, before);
      ReferenceTracks(base, xs);
    } else {
      assert before[..i] == xs[..i] && before[..i + 1] == xs[..i + 1];
      AtEntry(base, before, i);
    }
  }

  ghost predicate OnDisk(x: Item, fs: Fs)
    requires !Multi(x) && Simple(x)
  {
    fs.Exists(x.path) && fs.NodeOf(x.path) == OwnNode(x)
  }

  lemma {:induction false} EnteredAlone(base: Fs, xs: seq<Item>, x: Item, fs: Fs)
    requires !Multi(x) && Simple(x)
    ensures OnDisk(x, Entered(base, xs, fs, x))
  {
    hide Group, FirstData, Stall, Fails, WayTo;
    Created(WayTo(fs, x.path), x.path, OwnNode(x));
  }

  /** The last entry that touches a path outside the groups decides what is there. */
  lemma {:induction false} LastEntryWins(base: Fs, xs: seq<Item>, i: nat)
    requires base.Valid() && RunsOn(base, xs) && Tame(base, xs) && i < |xs| && !Multi(xs[i])
      && Lasts(base, xs, i, xs[i].path)
    ensures Simple(xs[i]) && OnDisk(xs[i], Reference(base, xs))
  {
    hide RunsOn, Steady, SpelledOnce, Touches, Entered, SteadyStep, FsTracks, Untouched;
    AtEntry(base, xs, i);
    EnteredAlone(base, xs[..i], xs[i], Reference(base, xs[..i]));
    ReferenceFrame(base, xs, i + 1, xs[i].path);
    TracksValid(base, xs[..i + 1], Reference(base, xs[..i + 1]));
    UntouchedNode(Reference(base, xs[..i + 1]), Reference(base, xs), xs[i].path);
  }

  lemma {:induction false} TracksValid(base: Fs, xs: seq<Item>, fs: Fs)
    requires FsTracks(base, xs, fs)
    ensures fs.Valid() && DirsTrack(base, xs, fs)
  {
  }

  /** The created path of a group stays that of the entry that brought the data. */
  lemma {:induction false} CreatedStays(xs: seq<Item>, i: nat, n: nat)
    requires i < n <= |xs| && Creates(xs[..i], xs[i])
    ensures
      var g := Group(xs[..n], xs[i].key);
      FirstData(g) < |g| && CreatedPath(g) == xs[i].path
    decreases n
  {
    hide Group, FirstData;
    var before, x, key := xs[..n - 1], xs[n - 1], xs[i].key;
    assert xs[..n] == before + [x];
    GroupAppend(before, x, key);
    FirstDataAppend(Group(before, key), x);
    if n == i + 1 {
      assert (Group(before, key) + [x])[|Group(before, key)|] == x;
    } else {
      CreatedStays(xs, i, n - 1);
    }
  }

  /** The entry that brings the data of a group binds all waiting names to it. */
  lemma {:induction false} EnteredFirst(base: Fs, xs: seq<Item>, x: Item, fs: Fs, p: PathName)
    requires FsTracks(base, xs, fs) && SteadyStep(base, xs, x) && Creates(xs, x) && Clear(base, xs, x)
    requires p == x.path || p in Paths(Group(xs, x.key))
    ensures
      var fs' := Entered(base, xs, fs, x);
      && fs'.Exists(x.path) && fs'.NodeOf(x.path) == Regular(x.data)
      && fs'.Exists(p) && fs'.names[p] == fs'.names[x.path]
  {
    hide Group, FirstData, Stall, Dirs, FsTracks, SteadyStep, Clear, Kinds, Ready, WayTo, Paths;
    CreatedClear(base, xs, x, fs);
    Created(WayTo(fs, x.path), x.path, Regular(x.data));
  }

  /**
   * The names of a group share one node with its data: those that waited when the data came, and those that were linked
   * later, for as long as neither they nor the created path are touched again.
   */
  lemma {:induction false} GroupShares(base: Fs, xs: seq<Item>, i: nat, k: nat)
    requires base.Valid() && RunsOn(base, xs) && Tame(base, xs) && i < |xs| && k < |xs|
    requires Creates(xs[..i], xs[i]) && InGroup(xs[k], xs[i].key) && (k > i ==> !Fails(base, xs[..k], xs[k]))
    requires Lasts(base, xs, i, xs[i].path) && Lasts(base, xs, if k < i then i else k, xs[k].path)
    ensures
      var fs := Reference(base, xs);
      && fs.Exists(xs[i].path) && fs.NodeOf(xs[i].path) == Regular(xs[i].data)
      && fs.Exists(xs[k].path) && fs.names[xs[k].path] == fs.names[xs[i].path]
  {
    hide RunsOn, Steady, SpelledOnce, Touches, Entered, SteadyStep, FsTracks, Untouched, Clear, Group, FirstData,
      Full, Reference, Fails;
    var c, fs := xs[i].path, Reference(base, xs);
    AtEntry(base, xs, i);
    var fsi := Reference(base, xs[..i + 1]);
    EnteredFirst(base, xs[..i], xs[i], Reference(base, xs[..i]), c);
    TracksValid(base, xs[..i + 1], fsi);
    ReferenceFrame(base, xs, i + 1, c);
    UntouchedNode(fsi, fs, c);
    if k < i {
      assert xs[..i][k] == xs[k];
      var m := GroupHas(xs[..i], xs[k]);
      EnteredFirst(base, xs[..i], xs[i], Reference(base, xs[..i]), xs[k].path);
      ReferenceFrame(base, xs, i + 1, xs[k].path);
      UntouchedNode(fsi, fs, xs[k].path);
    } else if k > i {
      LaterShares(base, xs, i, k);
    }
  }

  lemma {:induction false} LaterShares(base: Fs, xs: seq<Item>, i: nat, k: nat)
    requires base.Valid() && RunsOn(base, xs) && Steady(base, xs) && i < k < |xs|
    requires Creates(xs[..i], xs[i]) && InGroup(xs[k], xs[i].key) && !Fails(base, xs[..k], xs[k])
    requires Lasts(base, xs, i, xs[i].path) && Lasts(base, xs, k, xs[k].path)
    ensures
      var fs := Reference(base, xs);
      fs.Exists(xs[k].path) && xs[i].path in fs.names && fs.names[xs[k].path] == fs.names[xs[i].path]
  {
    hide RunsOn, Steady, Touches, SteadyStep, Untouched, Clear, Group, FirstData, Full, Reference, Fails, LinkAll,
      Paths, Simple, Dirs;
    var c, p, fs := xs[i].path, xs[k].path, Reference(base, xs);
    AtEntry(base, xs, k);
    var before, after := Reference(base, xs[..k]), Reference(base, xs[..k + 1]);
    CreatedStays(xs, i, k);
    assert NameTracks(base, xs[..k], before, xs[i].key);
    NotStalled(base, xs[..k], xs[k]);
    assert after == before.Link(c, p);
    ReferenceFrame(base, xs, k + 1, p);
    UntouchedNode(after, fs, p);
    LastsLater(base, xs, i, k, c);
    ReferenceFrame(base, xs, k, c);
    UntouchedNode(before, fs, c);
  }

  lemma {:induction false} NotStalled(base: Fs, xs: seq<Item>, x: Item)
    requires Late(xs, x) && !Fails(base, xs, x)
    ensures Stall(base, xs, x.key) == |Group(xs, x.key)|
  {
  }

  lemma {:induction false} LastsLater(base: Fs, xs: seq<Item>, i: int, n: int, p: PathName)
    requires i <= n && Lasts(base, xs, i, p)
    ensures Lasts(base, xs, n - 1, p) || n == i
  {
    hide Touches;
  }

  // ---------- orderly archives ----------

  /** What hard links are meant for: a group has no more entries than links, and all its paths are different. */
  ghost predicate OrderlyGroup(g: seq<Item>)
  {
    g != [] ==> |g| <= g[0].nlink && forall i, j :: 0 <= i < j < |g| ==> g[i].path != g[j].path
  }

  /** A group entry comes behind the directories on its way, and its path never becomes a directory. */
  ghost predicate WellPlaced(base: Fs, xs: seq<Item>, i: nat)
    requires i < |xs|
  {
    Multi(xs[i]) ==> !Dirs(base, xs, xs[i].path) && GroundedBy(base, xs[..i], xs[i].path)
  }

  /** Any other entry can be installed. */
  ghost predicate Installable(base: Fs, xs: seq<Item>, i: nat)
    requires i < |xs|
  {
    !Multi(xs[i]) ==>
      xs[i].path != [] && Simple(xs[i]) && (xs[i].kind.DirectoryFile? || !Dirs(base, xs[..i], xs[i].path))
  }

  /** No symbolic link is wanted as a directory, or takes the path of a group entry. */
  ghost predicate Unlinked(base: Fs, xs: seq<Item>, i: nat)
    requires i < |xs|
  {
    && (forall q :: Wants(xs[i], q) ==> !base.IsLink(q) && !LinkEntry(xs, q))
    && (Multi(xs[i]) ==> !LinkEntry(xs, xs[i].path))
  }

  /** Groups and other entries as they should be; entries outside the groups may repeat paths. */
  ghost predicate Arranged(base: Fs, xs: seq<Item>)
  {
    && (forall key: Key :: OrderlyGroup(Group(xs, key)))
    && (forall i :: 0 <= i < |xs| ==> WellPlaced(base, xs, i) && Installable(base, xs, i) && Unlinked(base, xs, i))
  }

  /** The archives that the installer is meant for. */
  ghost predicate Orderly(base: Fs, xs: seq<Item>) {
    SpelledOnce(base, xs) && Arranged(base, xs)
  }

  lemma {:induction false} DirsMonotone(base: Fs, xs: seq<Item>, n: nat, p: PathName)
    requires n <= |xs| && Dirs(base, xs[..n], p)
    ensures Dirs(base, xs, p)
  {
    if n == |xs| {
      assert xs[..n] == xs;
    } else {
      var before := xs[..|xs| - 1];
      assert before[..n] == xs[..n];
      DirsMonotone(base, before, n, p);
    }
  }

  lemma {:induction false} OrderlyPrefix(base: Fs, xs: seq<Item>, x: Item)
    requires Arranged(base, xs + [x])
    ensures Arranged(base, xs)
  {
    hide Group, Dirs, Simple;
    var ys := xs + [x];
    forall key: Key
      ensures OrderlyGroup(Group(xs, key))
    {
      GroupAppend(xs, x, key);
      assert OrderlyGroup(Group(ys, key));
      assert forall k :: 0 <= k < |Group(xs, key)| ==> Group(ys, key)[k] == Group(xs, key)[k];
    }
    forall i | 0 <= i < |xs|
      ensures WellPlaced(base, xs, i) && Installable(base, xs, i) && Unlinked(base, xs, i)
    {
      assert ys[i] == xs[i] && ys[..i] == xs[..i];
      assert WellPlaced(base, ys, i) && Installable(base, ys, i) && Unlinked(base, ys, i);
      DirsAppend(base, xs, x, xs[i].path);
      forall q
        ensures LinkEntry(xs, q) ==> LinkEntry(ys, q)
      {
        LinkEntryAppend(xs, x, q);
      }
    }
  }

  /** The last entry of an orderly archive is accepted, and its group does not stall. */
  lemma {:induction false} OrderlyStep(base: Fs, xs: seq<Item>, x: Item)
    requires Arranged(base, xs + [x]) && Arranged(base, xs)
    requires Multi(x) ==> Stall(base, xs, x.key) == |Group(xs, x.key)|
    ensures Accepts(base, xs, x) && SteadyStep(base, xs, x) && !Fails(base, xs, x)
  {
    hide Group, Dirs, Simple, FirstData, Stall, Hinders, Arranged, WellPlaced, Installable, Unlinked;
    OrderlyLinks(base, xs, x);
    if Multi(x) {
      OrderlyGroupEntry(base, xs, x);
      if Creates(xs, x) {
        forall k | 0 <= k < |Group(xs, x.key)|
          ensures !Hinders(base, xs, x, Group(xs, x.key)[k].path)
        {
          OrderlyWaiting(base, xs, x, k);
        }
      }
    } else {
      OrderlyAlone(base, xs, x);
    }
  }

  lemma {:induction false} OrderlyLinks(base: Fs, xs: seq<Item>, x: Item)
    requires Arranged(base, xs + [x])
    ensures Straight(base, xs, x) && LinksAside(xs, x)
  {
    hide Group, Dirs, Simple, WellPlaced, Installable, OrderlyGroup;
    var ys := xs + [x];
    assert ys[|xs|] == x && Unlinked(base, ys, |xs|);
    forall q
      ensures LinkEntry(ys, q) <==> LinkEntry(xs, q) || (x.kind.SymlinkFile? && x.path == q)
    {
      LinkEntryAppend(xs, x, q);
    }
    forall i | 0 <= i < |xs| && Multi(xs[i]) && x.kind.SymlinkFile?
      ensures xs[i].path != x.path && !IsLeading(x.path, xs[i].path)
    {
      assert ys[i] == xs[i] && Unlinked(base, ys, i);
      assert LinkEntry(ys, x.path);
    }
  }

  lemma {:induction false} OrderlyAlone(base: Fs, xs: seq<Item>, x: Item)
    requires Arranged(base, xs + [x]) && !Multi(x)
    ensures x.path != [] && Simple(x) && (x.kind.DirectoryFile? || !Dirs(base, xs, x.path))
  {
    hide Group, Dirs, Simple, WellPlaced, Unlinked, OrderlyGroup;
    var ys := xs + [x];
    assert ys[|xs|] == x && ys[..|xs|] == xs && Installable(base, ys, |xs|);
  }

  lemma {:induction false} OrderlyGroupEntry(base: Fs, xs: seq<Item>, x: Item)
    requires Arranged(base, xs + [x]) && Multi(x) && Stall(base, xs, x.key) == |Group(xs, x.key)|
    ensures !Full(Group(xs, x.key), Stall(base, xs, x.key)) && !Fails(base, xs, x)
    ensures x.path != [] && !Dirs(base, xs, x.path) && GroundedBy(base, xs, x.path)
  {
    hide Group, Dirs, FirstData, Stall, Installable, Unlinked;
    var ys, g := xs + [x], Group(xs, x.key);
    assert ys[|xs|] == x && ys[..|xs|] == xs && WellPlaced(base, ys, |xs|);
    GroupAppend(xs, x, x.key);
    assert OrderlyGroup(Group(ys, x.key));
    assert (g + [x])[|g|] == x && forall k :: 0 <= k < |g| ==> (g + [x])[k] == g[k];
    DirsAppend(base, xs, x, x.path);
    if Late(xs, x) {
      var f := FirstData(g);
      OrderlyNeighbour(base, xs, x, f);
      assert (g + [x])[f].path != (g + [x])[|g|].path;
    }
  }

  /** An earlier entry of the group: its path is not, and does not become, a directory, and its way is there. */
  lemma {:induction false} OrderlyNeighbour(base: Fs, xs: seq<Item>, x: Item, k: nat)
    requires Arranged(base, xs + [x]) && Multi(x) && k < |Group(xs, x.key)|
    ensures
      var p := Group(xs, x.key)[k].path;
      && p != x.path && !Dirs(base, xs + [x], p) && !Dirs(base, xs, p)
      && p != [] && forall q :: IsLeading(q, p) ==> Dirs(base, xs, q)
  {
    hide Group, Dirs, FirstData, Stall, Installable, Unlinked;
    var ys, g := xs + [x], Group(xs, x.key);
    GroupAppend(xs, x, x.key);
    assert OrderlyGroup(Group(ys, x.key));
    assert (g + [x])[k].path != (g + [x])[|g|].path;
    GroupEntry(xs, x.key, k);
    var j :| 0 <= j < |xs| && xs[j] == g[k] && Multi(xs[j]);
    assert ys[j] == xs[j] && ys[..j] == xs[..j] && WellPlaced(base, ys, j);
    DirsAppend(base, xs, x, g[k].path);
    forall q | IsLeading(q, g[k].path)
      ensures Dirs(base, xs, q)
    {
      DirsMonotone(base, xs, j, q);
    }
  }

  lemma {:induction false} OrderlyWaiting(base: Fs, xs: seq<Item>, x: Item, k: nat)
    requires Arranged(base, xs + [x]) && Creates(xs, x) && k < |Group(xs, x.key)|
    ensures !Hinders(base, xs, x, Group(xs, x.key)[k].path)
  {
    hide Group, Dirs, FirstData, Stall, Arranged;
    OrderlyNeighbour(base, xs, x, k);
    DirsAppend(base, xs, x, Group(xs, x.key)[k].path);
  }

  /** Their runs go on to the end, and no group stalls. */
  lemma {:induction false} ArrangedRuns(base: Fs, xs: seq<Item>)
    requires Arranged(base, xs)
    ensures RunsOn(base, xs) && Steady(base, xs)
    ensures forall key: Key :: Stall(base, xs, key) == |Group(xs, key)|
    decreases |xs|
  {
    hide Arranged, Accepts, SteadyStep, Group, FirstData, Blocked, Late;
    if xs != [] {
      var before, x := xs[..|xs| - 1], xs[|xs| - 1];
      assert before + [x] == xs;
      OrderlyPrefix(base, before, x);
      ArrangedRuns(base, before);
      OrderlyStep(base, before, x);
      forall key: Key
        ensures Stall(base, xs, key) == |Group(xs, key)|
      {
        GroupAppend(before, x, key);
        StallAppend(base, before, x, key);
      }
    } else {
      forall key: Key
        ensures Stall(base, xs, key) == |Group(xs, key)|
      {
        NoGroup(key);
      }
    }
  }

  /** Orderly archives are covered by the run theorems, their runs go on to the end, and no group stalls. */
  lemma {:induction false} OrderlyRuns(base: Fs, xs: seq<Item>)
    requires Orderly(base, xs)
    ensures RunsOn(base, xs) && Tame(base, xs)
    ensures forall key: Key :: Stall(base, xs, key) == |Group(xs, key)|
  {
    hide SpelledOnce, Arranged, RunsOn, Steady, Stall, Group;
    ArrangedRuns(base, xs);
  }

  /** Some entry of the group of every multi-link entry brings data. */
  ghost predicate EveryGroupHasData(xs: seq<Item>)
  {
    forall i :: 0 <= i < |xs| && Multi(xs[i]) ==> FirstData(Group(xs, xs[i].key)) < |Group(xs, xs[i].key)|
  }

  /** Over every orderly archive: success exactly when every group has data, and the file system is the reference. */
  lemma {:induction false} InstallOutcome(fs: Fs, xs: seq<Item>)
    requires Orderly(fs, xs) && fs.Valid()
    ensures
      var r := Install(State(fs, [], false), xs);
      r.Went? && r.rc == (if EveryGroupHasData(xs) then 0 else CPIOERR_INTERNAL) && r.st.fs == Reference(fs, xs)
  {
    hide Install, Orderly, Group, FirstData, Stall, RunsOn, Steady, Overruns, Reference, Dirs;
    OrderlyRuns(fs, xs);
    RunOutcome(fs, xs);
    assert AllComplete(fs, xs) <==> EveryGroupHasData(xs);
  }

  /** Until an orderly group has data, all its links are left; from then on, as many as it has entries to come. */
  lemma {:induction false} OrderlyLinksLeft(st: State, xs: seq<Item>, key: Key)
    requires Orderly(st.fs, xs) && st.links == [] && st.fs.Valid() && Group(xs, key) != []
    ensures
      var g, r := Group(xs, key), InstallAll(st, xs);
      && GoesOn(r)
      && var i := FindLink(r.st.links, key);
         i < |r.st.links| && r.st.links[i].linksLeft == if FirstData(g) < |g| then g[0].nlink - |g| else g[0].nlink
  {
    hide Orderly, Group, FirstData, Stall, RunsOn, Overruns, InstallAll, SlotContent, FindLink, FsTracks, Steady,
      Reference;
    OrderlyRuns(st.fs, xs);
    RunExactly(st, xs);
  }

  // ---------- what no run touches ----------

  /** Some entry has this path, or it is a directory on the way to one. */
  ghost predicate Names(xs: seq<Item>, p: PathName) {
    exists i :: 0 <= i < |xs| && (xs[i].path == p || IsLeading(p, xs[i].path))
  }

  ghost predicate StoredIn(li: HardLink, p: PathName) {
    exists k :: 0 <= k < |li.files| && li.files[k] == Some(p)
  }

  /** The list of groups holds no slot with this name. */
  ghost predicate Unknown(links: seq<HardLink>, p: PathName) {
    forall i :: 0 <= i < |links| ==> !StoredIn(links[i], p)
  }

  /** The file system is sound, and `p` and the slots of the groups are as they were. */
  ghost predicate Spared(fs: Fs, st: State, p: PathName) {
    st.fs.Valid() && Untouched(fs, st.fs, p) && Unknown(st.links, p)
  }

  lemma {:induction false} LinkFrame(fs: Fs, c: PathName, path: PathName, p: PathName)
    requires fs.Valid() && path != p
    ensures Untouched(fs, fs.Unlink(path), p) && fs.Unlink(path).Valid()
    ensures var free := fs.Unlink(path);
      c in free.names ==> Untouched(fs, free.Link(c, path), p) && free.Link(c, path).Valid()
  {
    UntouchedItself(fs, p);
  }

  /** Linking the waiting names, whether it succeeds or not, touches only those names. */
  lemma {:induction false} CreateLinksFrame(fs: Fs, li: HardLink, i: nat, p: PathName)
    requires LinkShape(li) && i <= li.nlink && !StoredIn(li, p) && fs.Valid()
    ensures
      var r := CreateLinks(fs, li, i);
      r.Some? ==> r.value.fs.Valid() && Untouched(fs, r.value.fs, p) && !StoredIn(r.value.li, p)
    decreases li.nlink - i
  {
    hide Untouched, Fs.Crosses, Fs.Grounded;
    UntouchedItself(fs, p);
    if i < li.nlink && (i == li.createdPath || li.files[i].None?) {
      CreateLinksFrame(fs, li, i + 1, p);
    } else if i < li.nlink {
      var c, path := li.files[li.createdPath].value, li.files[i].value;
      LinkFrame(fs, c, path, p);
      var free := fs.Unlink(path);
      if !fs.Crosses(path) && !fs.IsDir(path) && free.Linkable(c, path) {
        var li' := li.(files := li.files[i := None], linksLeft := li.linksLeft - 1);
        assert forall k :: 0 <= k < |li.files| ==> li'.files[k] == li.files[k] || li'.files[k] == None;
        CreateLinksFrame(free.Link(c, path), li', i + 1, p);
        var r := CreateLinks(free.Link(c, path), li', i + 1);
        if r.Some? {
          UntouchedTransitive(fs, free.Link(c, path), r.value.fs, p);
        }
      }
    }
  }

  lemma {:induction false} EnrolledFrame(links: seq<HardLink>, x: Item, p: PathName)
    requires Multi(x) && Shapes(links) && Unknown(links, p) && p != x.path
    ensures Enrolled(links, x).Slotted? ==> Unknown(Enrolled(links, x).links, p)
  {
    var r := Enrolled(links, x);
    if r.Slotted? {
      var i := FindLink(links, x.key);
      var links' := if i < |links| then links else [NewLink(x)] + links;
      assert Unknown(links', p);
      forall j | 0 <= j < |r.links|
        ensures !StoredIn(r.links[j], p)
      {
        assert forall k :: 0 <= k < |links'[j].files| ==>
          r.links[j].files[k] == links'[j].files[k] || r.links[j].files[k] == Some(x.path);
      }
    }
  }

  /** Making the directories on the way to an entry does not touch what is neither on it nor its end. */
  lemma {:induction false} WayFrame(fs: Fs, path: PathName, p: PathName)
    requires fs.Valid() && path != [] && !IsLeading(p, path)
    ensures
      var r := fs.MakeLeading(path, 1);
      r.Some? ==> r.value.Valid() && Untouched(fs, r.value, p)
  {
    LeadingMade(fs, path, 1);
  }

  lemma {:induction false} SparedChange(fs: Fs, st: State, path: PathName, node: Node, p: PathName)
    requires Spared(fs, st, p) && p != path
    ensures Spared(fs, st.(fs := st.fs.Create(path, node)), p) && Spared(fs, st.(fs := st.fs.Place(path, node)), p)
    ensures Spared(fs, st.(fs := st.fs.Unlink(path)), p) && Spared(fs, Abandoned(st, path), p)
  {
    hide Untouched, StoredIn;
    OthersUntouched(st.fs, path, node, p);
    Created(st.fs, path, node);
    UntouchedTransitive(fs, st.fs, st.fs.Create(path, node), p);
    UntouchedTransitive(fs, st.fs, st.fs.Place(path, node), p);
    UntouchedTransitive(fs, st.fs, st.fs.Unlink(path), p);
  }

  lemma {:induction false} AloneFrame(st: State, x: Item, p: PathName)
    requires st.fs.Valid() && Unknown(st.links, p) && p != x.path
    ensures
      var r := InstallAlone(st, x);
      r.Went? || r.Astray? ==> Spared(st.fs, r.st, p)
  {
    hide Spared, Abandoned, Unknown, Fs.Create, Fs.Unlink, Fs.Place;
    assert Spared(st.fs, st, p) by {
      SparedItself(st, p);
    }
    SparedChange(st.fs, st, x.path, Fifo, p);
    SparedChange(st.fs, st, x.path, Directory, p);
    SparedChange(st.fs, st, x.path, Regular(x.data), p);
    SparedChange(st.fs, st.(fs := st.fs.Create(x.path, Regular(x.data))), x.path, Fifo, p);
    SparedChange(st.fs, st, x.path, Symlink(Target(x)), p);
    SparedChange(st.fs, st.(fs := st.fs.Unlink(x.path)), x.path, Fifo, p);
    if x.kind.DeviceFile? {
      SparedChange(st.fs, st, x.path, Device(x.kind.rdev), p);
    }
  }

  lemma {:induction false} SparedItself(st: State, p: PathName)
    requires st.fs.Valid() && Unknown(st.links, p)
    ensures Spared(st.fs, st, p)
  {
    UntouchedItself(st.fs, p);
  }

  lemma {:induction false} FirstFrame(st: State, x: Item, e: Slotted, p: PathName)
    requires Multi(x) && st.fs.Valid() && Shapes(st.links) && e == Enrolled(st.links, x) && e.Slotted?
    requires Unknown(e.links, p) && p != x.path && !IsLeading(p, x.path)
    ensures
      var r := InstallFirst(st.(links := e.links), x, e.at, e.slot);
      r.Went? || r.Astray? ==> Spared(st.fs, r.st, p)
  {
    hide Enrolled, CreateLinks, Untouched;
    if x.path != [] && st.fs.MakeLeading(x.path, 1).Some? {
      var led := st.fs.MakeLeading(x.path, 1).value;
      WayFrame(st.fs, x.path, p);
      OthersUntouched(led, x.path, Regular(x.data), p);
      Created(led, x.path, Regular(x.data));
      var created := if led.IsDir(x.path) then led else led.Create(x.path, Regular(x.data));
      UntouchedItself(led, p);
      UntouchedTransitive(st.fs, led, created, p);
      assert !StoredIn(e.links[e.at], p);
      var li := e.links[e.at].(createdPath := e.slot, linksLeft := e.links[e.at].linksLeft - 1);
      CreateLinksFrame(created, li, 0, p);
      var r := CreateLinks(created, li, 0);
      if r.Some? {
        UntouchedTransitive(st.fs, created, r.value.fs, p);
      }
    }
  }

  lemma {:induction false} ItemFrame(st: State, x: Item, p: PathName)
    requires st.fs.Valid() && Shapes(st.links) && Unknown(st.links, p) && p != x.path && !IsLeading(p, x.path)
    ensures
      var r := InstallItem(st, x);
      r.Went? || r.Astray? ==> Spared(st.fs, r.st, p)
  {
    hide Enrolled, CreateLinks, Untouched, StoredIn, InstallFirst, InstallAlone;
    UntouchedItself(st.fs, p);
    if Multi(x) {
      var e := Enrolled(st.links, x);
      EnrolledFrame(st.links, x, p);
      if e.Slotted? && e.links[e.at].createdPath != -1 {
        assert !StoredIn(e.links[e.at], p);
        CreateLinksFrame(st.fs, e.links[e.at], 0, p);
      } else if e.Slotted? {
        FirstFrame(st, x, e, p);
      }
    } else if x.path != [] && st.fs.MakeLeading(x.path, 1).Some? {
      var led := st.fs.MakeLeading(x.path, 1).value;
      WayFrame(st.fs, x.path, p);
      AloneFrame(st.(fs := led), x, p);
      var r := InstallAlone(st.(fs := led), x);
      if r.Went? || r.Astray? {
        UntouchedTransitive(st.fs, led, r.st.fs, p);
      }
    }
  }

  lemma {:induction false} RunFrame(st: State, xs: seq<Item>, p: PathName)
    requires st.fs.Valid() && Shapes(st.links) && Unknown(st.links, p) && !Names(xs, p)
    ensures
      var r := InstallAll(st, xs);
      r.Went? || r.Astray? ==> Spared(st.fs, r.st, p)
  {
    hide InstallItem, Untouched, Unknown;
    if xs == [] {
      UntouchedItself(st.fs, p);
    } else {
      var before, x := xs[..|xs| - 1], xs[|xs| - 1];
      RunFrame(st, before, p);
      var r := InstallAll(st, before);
      if GoesOn(r) {
        ItemFrame(r.st, x, p);
        var r' := InstallItem(r.st, x);
        if r'.Went? || r'.Astray? {
          UntouchedTransitive(st.fs, r.st.fs, r'.st.fs, p);
        }
      }
    }
  }

  lemma {:induction false} ClosingFrame(fs: Fs, links: seq<HardLink>, p: PathName)
    requires fs.Valid() && Shapes(links) && Unknown(links, p)
    ensures
      var r := ClosingPass(fs, links);
      r.Some? ==> Untouched(fs, r.value.1, p)
    decreases |links|
  {
    hide Untouched, StoredIn, CreateLinks;
    UntouchedItself(fs, p);
    if links != [] && links[0].linksLeft == 0 {
      ClosingFrame(fs, links[1..], p);
    } else if links != [] && links[0].createdPath != -1 {
      CreateLinksFrame(fs, links[0], 0, p);
      var r := CreateLinks(fs, links[0], 0);
      if r.Some? && r.value.rc == 0 {
        ClosingFrame(r.value.fs, links[1..], p);
        var r' := ClosingPass(r.value.fs, links[1..]);
        if r'.Some? {
          UntouchedTransitive(fs, r.value.fs, r'.value.1, p);
        }
      }
    }
  }

  /**
   * Whatever the archive, and whatever the installation returns: a path that is neither that of an entry nor on the
   * way to one, under any spelling, keeps its node and content, and no such path appears.
   */
  lemma {:induction false} InstallFrame(fs: Fs, xs: seq<Item>, p: PathName)
    requires fs.Valid() && !Names(xs, p) && OneSpelling(fs, xs, p)
    ensures
      var r := Install(State(fs, [], false), xs);
      r.Went? || r.Astray? ==> Untouched(fs, r.st.fs, p)
  {
    hide InstallAll, ClosingPass, Untouched, OneSpelling;
    var st := State(fs, [], false);
    RunFrame(st, xs, p);
    var r := InstallAll(st, xs);
    if GoesOn(r) {
      ClosingFrame(r.st.fs, r.st.links, p);
      var c := ClosingPass(r.st.fs, r.st.links);
      if c.Some? {
        UntouchedTransitive(fs, r.st.fs, c.value.1, p);
      }
    }
  }
}
