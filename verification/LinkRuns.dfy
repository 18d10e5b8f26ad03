/** Hard-link groups over whole runs: which runs go on, which leave a group's slots, and what is on disk then. */
module LinkRuns {
  import opened Words
  import opened FileTree
  import opened HardLinks

  // ---------- groups ----------

  predicate InGroup(x: Item, key: Key) {
    Multi(x) && x.key == key
  }

  /** The multi-link entries of one group, in the order of the archive. */
  function Group(xs: seq<Item>, key: Key): (g: seq<Item>)
    ensures forall i :: 0 <= i < |g| ==> InGroup(g[i], key) && g[i] in xs
  {
    if xs == [] then []
    else
      var g := Group(xs[..|xs| - 1], key);
      var x := xs[|xs| - 1];
      if InGroup(x, key) then g + [x] else g
  }

  /** The first entry of a group that brings data: the one that creates the file. */
  function FirstData(g: seq<Item>): (f: nat)
    ensures f <= |g| && (f < |g| ==> HasData(g[f]))
    ensures forall k :: 0 <= k < f ==> !HasData(g[k])
  {
    if g == [] || HasData(g[0]) then 0 else 1 + FirstData(g[1..])
  }

  /** The entry belongs to a group whose file has been created. */
  predicate Late(xs: seq<Item>, x: Item) {
    Multi(x) && FirstData(Group(xs, x.key)) < |Group(xs, x.key)|
  }

  /** The entry brings the data of its group. */
  predicate Creates(xs: seq<Item>, x: Item) {
    Multi(x) && !Late(xs, x) && HasData(x)
  }

  /** The path of the file that a group shares, once it is created. */
  function CreatedPath(g: seq<Item>): (p: PathName)
    requires FirstData(g) < |g|
  {
    g[FirstData(g)].path
  }

  // ---------- directories, by the entries alone ----------

  /** The directories an entry asks for: those on its way, and itself if it is one. */
  predicate Wants(x: Item, q: PathName) {
    IsLeading(q, x.path) || (x.kind.DirectoryFile? && q == x.path)
  }

  /** Entries that are only stored with their group, or linked, do not have their directories made. */
  predicate MakesDirs(xs: seq<Item>, x: Item) {
    !Multi(x) || Creates(xs, x)
  }

  /** `p` is a directory after a run over `xs`: directories come, and never go. */
  predicate Dirs(base: Fs, xs: seq<Item>, p: PathName)
  {
    if xs == [] then base.IsDir(p)
    else
      var before, x := xs[..|xs| - 1], xs[|xs| - 1];
      Dirs(base, before, p) || (MakesDirs(before, x) && Wants(x, p))
  }

  /** The directories on the way to `p` are there when `x` has been handled. */
  ghost predicate GroundedBy(base: Fs, xs: seq<Item>, p: PathName) {
    p != [] && forall q :: IsLeading(q, p) ==> Dirs(base, xs, q)
  }

  /** A late entry that cannot be linked: the created path comes again, or one of the two paths is a directory. */
  predicate Blocked(base: Fs, xs: seq<Item>, x: Item)
    requires Late(xs, x)
  {
    var c := CreatedPath(Group(xs, x.key));
    x.path == c || Dirs(base, xs, c) || Dirs(base, xs, x.path)
  }

  /** The first entry of a group that was not linked; from it on, names are only stored. */
  function Stall(base: Fs, xs: seq<Item>, key: Key): (r: nat)
    ensures r <= |Group(xs, key)|
    ensures FirstData(Group(xs, key)) < |Group(xs, key)| ==> FirstData(Group(xs, key)) < r
    ensures FirstData(Group(xs, key)) == |Group(xs, key)| ==> r == |Group(xs, key)|
  {
    if xs == [] then 0
    else
      var before, x := xs[..|xs| - 1], xs[|xs| - 1];
      var g, r := Group(before, key), Stall(base, before, key);
      GroupLast(xs, key);
      if !InGroup(x, key) then r
      else
        FirstDataAppend(g, x);
        if !Late(before, x) then |g| + 1
        else if r < |g| || Blocked(base, before, x) then r
        else |g| + 1
  }

  lemma {:induction false} GroupLast(xs: seq<Item>, key: Key)
    requires xs != []
    ensures
      var g, x := Group(xs[..|xs| - 1], key), xs[|xs| - 1];
      Group(xs, key) == if InGroup(x, key) then g + [x] else g
  {
  }

  lemma {:induction false} GroupAppend(xs: seq<Item>, x: Item, key: Key)
    ensures Group(xs + [x], key) == if InGroup(x, key) then Group(xs, key) + [x] else Group(xs, key)
  {
    assert (xs + [x])[..|xs|] == xs;
  }

  lemma {:induction false} GroupHas(xs: seq<Item>, x: Item) returns (k: nat)
    requires x in xs && Multi(x)
    ensures k < |Group(xs, x.key)| && Group(xs, x.key)[k] == x
  {
    var last := |xs| - 1;
    if xs[last] == x {
      k := |Group(xs, x.key)| - 1;
    } else {
      var i :| 0 <= i < |xs| && xs[i] == x;
      assert xs[..last][i] == x;
      k := GroupHas(xs[..last], x);
    }
  }

  lemma {:induction false} FirstDataAppend(g: seq<Item>, x: Item)
    ensures FirstData(g + [x]) == if FirstData(g) < |g| then FirstData(g) else if HasData(x) then |g| else |g| + 1
  {
    if g == [] {
      assert g + [x] == [x] && [x][1..] == [];
    } else {
      assert (g + [x])[1..] == g[1..] + [x];
      FirstDataAppend(g[1..], x);
    }
  }

  lemma {:induction false} DirsAppend(base: Fs, xs: seq<Item>, x: Item, p: PathName)
    ensures Dirs(base, xs + [x], p) <==> Dirs(base, xs, p) || (MakesDirs(xs, x) && Wants(x, p))
  {
    assert (xs + [x])[..|xs|] == xs;
  }

  lemma {:induction false} StallAppend(base: Fs, xs: seq<Item>, x: Item, key: Key)
    ensures
      var g, r := Group(xs, key), Stall(base, xs, key);
      Stall(base, xs + [x], key)
      == if !InGroup(x, key) then r
         else if !Late(xs, x) then |g| + 1
         else if r < |g| || Blocked(base, xs, x) then r
         else |g| + 1
  {
    assert (xs + [x])[..|xs|] == xs;
  }

  // ---------- the records ----------

  /** The slots that names take, in order, are all but the one of the created path. */
  function SlotOf(f: nat, j: nat): (i: nat)
    ensures i != f
  {
    if j < f then j else j + 1
  }

  /** A group with entries up to the one at `r` linked, as the list records it. */
  function ExpectedLink(g: seq<Item>, r: nat): (li: HardLink)
    requires g != [] && g[0].nlink > 1 && FirstData(g) <= r <= |g|
  {
    var n, f := g[0].nlink, FirstData(g);
    if f == |g| then
      HardLink(g[0].key, n, n, -1, seq(n, i requires 0 <= i < n => if i < |g| then Some(g[i].path) else None))
    else
      HardLink(g[0].key, n, n - r, f, seq(n, i requires 0 <= i < n => SlotContent(g, r, i)))
  }

  function SlotContent(g: seq<Item>, r: nat, i: nat): (c: Option<PathName>)
    requires FirstData(g) < |g| && r <= |g|
  {
    var f := FirstData(g);
    var j := if i < f then i else i - 1;
    if i == f then Some(g[f].path) else if j < |g| - r then Some(g[r + j].path) else None
  }

  /** A further name has no slot. */
  predicate Full(g: seq<Item>, r: nat) {
    g != [] && if FirstData(g) == |g| then |g| == g[0].nlink else |g| - r == g[0].nlink - 1
  }

  /** All entries of the group found a slot. */
  ghost predicate Fits(g: seq<Item>, r: nat)
  {
    var f := FirstData(g);
    && g != [] && g[0].nlink > 1 && f <= r <= |g|
    && if f == |g| then |g| <= g[0].nlink else f < r && f < g[0].nlink && |g| - r < g[0].nlink
  }

  ghost predicate Room(g: seq<Item>, r: nat) {
    (g == [] && r == 0) || (Fits(g, r) && !Full(g, r))
  }

  // ---------- which runs go on ----------

  /** An entry outside the groups that can be installed where no directory stands, and leaves no data behind. */
  predicate Simple(x: Item) {
    match x.kind
    case RegularFile => x.missing == 0
    case SymlinkFile => |x.data| + 1 <= 2048 && x.missing == 0 && Target(x) != []
    case UnknownFile => false
    case _ => !HasData(x)
  }

  /** `p` is a directory once those on the way to `x` have been made. */
  predicate DirsFor(base: Fs, xs: seq<Item>, x: Item, p: PathName) {
    Dirs(base, xs, p) || IsLeading(p, x.path)
  }

  /** A waiting name that cannot be linked to the file that `x` creates. */
  ghost predicate Hinders(base: Fs, xs: seq<Item>, x: Item, p: PathName) {
    p == x.path || DirsFor(base, xs, x, p) || p == [] || exists q :: IsLeading(q, p) && !DirsFor(base, xs, x, q)
  }

  /** The data of a group can be installed: no directory stands there, and no waiting name hinders. */
  ghost predicate Clear(base: Fs, xs: seq<Item>, x: Item) {
    var g := Group(xs, x.key);
    x.path != [] && !Dirs(base, xs, x.path) && forall k :: 0 <= k < |g| ==> !Hinders(base, xs, x, g[k].path)
  }

  /** Whether a run that came so far goes on behind `x`, by the entries and the directories at the start alone. */
  ghost predicate Accepts(base: Fs, xs: seq<Item>, x: Item) {
    if Multi(x) then !Full(Group(xs, x.key), Stall(base, xs, x.key)) && (Creates(xs, x) ==> Clear(base, xs, x))
    else x.path != [] && Simple(x) && (x.kind.DirectoryFile? || !Dirs(base, xs, x.path))
  }

  ghost predicate RunsOn(base: Fs, xs: seq<Item>)
  {
    xs == [] || (RunsOn(base, xs[..|xs| - 1]) && Accepts(base, xs[..|xs| - 1], xs[|xs| - 1]))
  }

  lemma {:induction false} RunsOnAppend(base: Fs, xs: seq<Item>, x: Item)
    ensures RunsOn(base, xs + [x]) <==> RunsOn(base, xs) && Accepts(base, xs, x)
  {
    assert (xs + [x])[..|xs|] == xs;
  }

  /**
   * A store outside an array: the slots of a group are full, the directories of an empty name are looked for, or the
   * size of a symbolic link wraps around.
   */
  predicate Overshoots(base: Fs, xs: seq<Item>, x: Item) {
    || (Multi(x) && Full(Group(xs, x.key), Stall(base, xs, x.key)))
    || (MakesDirs(xs, x) && x.path == [])
    || WrapsSize(x)
  }

  // ---------- which runs are covered ----------

  /** Some entry is a symbolic link with this path. */
  ghost predicate LinkEntry(xs: seq<Item>, q: PathName) {
    exists i :: 0 <= i < |xs| && xs[i].kind.SymlinkFile? && xs[i].path == q
  }

  /** No directory that the entry asks for is, or was given as, a symbolic link. */
  ghost predicate Straight(base: Fs, xs: seq<Item>, x: Item) {
    forall q :: Wants(x, q) ==> !base.IsLink(q) && !LinkEntry(xs, q)
  }

  /** A symbolic link takes neither the path of a group entry nor that of a directory on its way. */
  ghost predicate LinksAside(xs: seq<Item>, x: Item) {
    x.kind.SymlinkFile? ==>
      forall i :: 0 <= i < |xs| && Multi(xs[i]) ==> xs[i].path != x.path && !IsLeading(x.path, xs[i].path)
  }

  /** The name at which the linking of a group fails when `x` comes. */
  function StallPath(base: Fs, xs: seq<Item>, x: Item): (p: PathName)
    requires Late(xs, x)
  {
    var g := Group(xs, x.key);
    (g + [x])[Stall(base, xs, x.key)].path
  }

  /** Linking fails when `x` comes. */
  predicate Fails(base: Fs, xs: seq<Item>, x: Item) {
    Late(xs, x) && (Stall(base, xs, x.key) < |Group(xs, x.key)| || Blocked(base, xs, x))
  }

  /** The name that is then unlinked is not what another group links to. */
  ghost predicate Harmless(base: Fs, xs: seq<Item>, x: Item) {
    Fails(base, xs, x) && !Dirs(base, xs, StallPath(base, xs, x)) ==>
      forall key: Key :: key != x.key && FirstData(Group(xs, key)) < |Group(xs, key)| ==>
        CreatedPath(Group(xs, key)) != StallPath(base, xs, x)
  }

  ghost predicate SteadyStep(base: Fs, xs: seq<Item>, x: Item) {
    && Straight(base, xs, x) && LinksAside(xs, x) && Harmless(base, xs, x)
    && (Late(xs, x) && !Fails(base, xs, x) ==> GroundedBy(base, xs, x.path))
  }

  /**
   * No symbolic link where a directory is wanted, a later name of a group comes behind the directories on its way, and
   * no group unlinks what another one links to.
   */
  ghost predicate Steady(base: Fs, xs: seq<Item>)
  {
    xs == [] || (Steady(base, xs[..|xs| - 1]) && SteadyStep(base, xs[..|xs| - 1], xs[|xs| - 1]))
  }

  /** A name at the start, the path of an entry, or a directory on its way. */
  ghost predicate Known(base: Fs, xs: seq<Item>, p: PathName) {
    p in base.names || exists i :: 0 <= i < |xs| && (xs[i].path == p || IsLeading(p, xs[i].path))
  }

  /** The way to `p` goes through no symbolic link, and no other path that occurs may be a spelling of the same file. */
  ghost predicate OneSpelling(base: Fs, xs: seq<Item>, p: PathName) {
    !base.Crosses(p) && forall q :: Known(base, xs, q) && q != p ==> !MayAlias(p, q)
  }

  /** Every file has one name that occurs, so that names stand for files. */
  ghost predicate SpelledOnce(base: Fs, xs: seq<Item>) {
    forall p :: Known(base, xs, p) ==> OneSpelling(base, xs, p)
  }

  /** The archives that the run theorems are about. */
  ghost predicate Tame(base: Fs, xs: seq<Item>) {
    SpelledOnce(base, xs) && Steady(base, xs)
  }

  lemma {:induction false} SteadyAppend(base: Fs, xs: seq<Item>, x: Item)
    ensures Steady(base, xs + [x]) <==> Steady(base, xs) && SteadyStep(base, xs, x)
  {
    assert (xs + [x])[..|xs|] == xs;
  }

  // ---------- the list of groups ----------

  ghost predicate DistinctKeys(links: seq<HardLink>) {
    forall i, j :: 0 <= i < j < |links| ==> links[i].key != links[j].key
  }

  /** The record that the list holds of the entries of a group. */
  function RecordOf(base: Fs, xs: seq<Item>, key: Key): (li: HardLink)
    requires Group(xs, key) != []
  {
    ExpectedLink(Group(xs, key), Stall(base, xs, key))
  }

  /** The list holds exactly the groups seen so far, each as expected. */
  ghost predicate LinksTrack(base: Fs, xs: seq<Item>, links: seq<HardLink>)
  {
    && Shapes(links) && DistinctKeys(links)
    && forall key: Key ::
         var i := FindLink(links, key);
         if Group(xs, key) == [] then i == |links| else i < |links| && links[i] == RecordOf(base, xs, key)
  }

  /** The groups of a run that goes on have found their slots. */
  lemma {:induction false} GroupFits(base: Fs, xs: seq<Item>, key: Key)
    requires RunsOn(base, xs) && Group(xs, key) != []
    ensures Fits(Group(xs, key), Stall(base, xs, key)) && Group(xs, key)[0].key == key
  {
    hide Fits, Group, Stall, Clear;
    var before, x := xs[..|xs| - 1], xs[|xs| - 1];
    assert xs == before + [x];
    GroupAppend(before, x, key);
    StallAppend(base, before, x, key);
    if Group(before, key) != [] {
      GroupFits(base, before, key);
    }
    if InGroup(x, key) {
      EmptyStall(base, before, key);
      FitsAppend(Group(before, key), Stall(base, before, key), x, Stall(base, xs, key));
    }
  }

  lemma {:induction false} EmptyStall(base: Fs, xs: seq<Item>, key: Key)
    ensures Group(xs, key) == [] ==> Stall(base, xs, key) == 0
  {
  }

  /** One more entry fits a group that has room. */
  lemma {:induction false} FitsAppend(g: seq<Item>, r: nat, x: Item, r': nat)
    requires Multi(x) && ((g == [] && r == 0) || Fits(g, r)) && !Full(g, r)
    requires r' == |g| + 1 || (r' == r && FirstData(g) < |g|)
    ensures Fits(g + [x], r')
  {
    FirstDataAppend(g, x);
    var h := g + [x];
    assert h[|g|] == x && forall k :: 0 <= k < |g| ==> h[k] == g[k];
  }

  // ---------- storing a name ----------

  /** The slot a further name of a group goes to. */
  function JoinSlot(g: seq<Item>, r: nat): (s: nat)
    requires r <= |g|
  {
    if FirstData(g) == |g| then |g| else SlotOf(FirstData(g), |g| - r)
  }

  /** The record as it is once the name of the entry has been stored. */
  function Joined(g: seq<Item>, r: nat, x: Item): (li: HardLink)
    requires Multi(x) && r <= |g| && (g != [] ==> g[0].nlink > 1 && FirstData(g) <= r && JoinSlot(g, r) < g[0].nlink)
  {
    if g == [] then NewLink(x).(files := NewLink(x).files[0 := Some(x.path)])
    else
      var li := ExpectedLink(g, r);
      li.(files := li.files[JoinSlot(g, r) := Some(x.path)])
  }

  lemma {:induction false} FreeSlotIs(files: seq<Option<PathName>>, s: nat)
    requires s <= |files| && (s < |files| ==> files[s].None?) && forall k :: 0 <= k < s ==> files[k].Some?
    ensures FreeSlot(files, 0) == s
  {
  }

  /** Where the search for a free slot ends. */
  lemma {:induction false} SlotFound(g: seq<Item>, r: nat)
    requires Fits(g, r)
    ensures
      var li := ExpectedLink(g, r);
      && |li.files| == li.nlink == g[0].nlink && (li.createdPath == -1 || LinkShape(li))
      && FreeSlot(li.files, 0) == if Full(g, r) then li.nlink else JoinSlot(g, r)
    ensures Full(g, r) || JoinSlot(g, r) < g[0].nlink
  {
    var li, n, f := ExpectedLink(g, r), g[0].nlink, FirstData(g);
    var s := if Full(g, r) then n else JoinSlot(g, r);
    if f < |g| {
      assert forall k :: 0 <= k < n ==> li.files[k] == SlotContent(g, r, k);
    }
    FreeSlotIs(li.files, s);
  }

  /** The search finds the group, and overruns its slots exactly when it is full. */
  lemma {:induction false} EnrolledFits(base: Fs, xs: seq<Item>, x: Item, links: seq<HardLink>)
    requires Multi(x) && LinksTrack(base, xs, links)
    requires Group(xs, x.key) != [] ==> Fits(Group(xs, x.key), Stall(base, xs, x.key))
    ensures
      var g, r, e := Group(xs, x.key), Stall(base, xs, x.key), Enrolled(links, x);
      && (e.NoSlot? <==> Full(g, r))
      && (!Full(g, r) ==> (g != [] ==> JoinSlot(g, r) < g[0].nlink) && e.Slotted? && e.slot == JoinSlot(g, r))
      && (!Full(g, r) && g == [] ==> e.at == 0 && e.links == [Joined(g, r, x)] + links)
      && (!Full(g, r) && g != [] ==>
            e.at == FindLink(links, x.key) < |links| && e.links == links[e.at := Joined(g, r, x)])
  {
    hide Group, Full, Stall, SlotContent;
    var g, r := Group(xs, x.key), Stall(base, xs, x.key);
    if g == [] {
      EmptyNotFull();
      assert FindLink(links, x.key) == |links|;
      FreeSlotIs(NewLink(x).files, 0);
      assert ([NewLink(x)] + links)[0 := Joined(g, r, x)] == [Joined(g, r, x)] + links;
    } else {
      hide ExpectedLink, JoinSlot;
      SlotFound(g, r);
    }
  }

  lemma {:induction false} EmptyNotFull()
    ensures !Full([], 0) && JoinSlot([], 0) == 0
  {
  }

  // ---------- the list after an entry ----------

  /** Replacing the group of an entry by what is expected keeps the whole list as expected. */
  lemma {:induction false} LinksTrackUpdated(base: Fs, xs: seq<Item>, x: Item, links: seq<HardLink>, li: HardLink)
    requires Multi(x) && LinksTrack(base, xs, links) && Group(xs, x.key) != [] && Group(xs + [x], x.key) != []
    requires li == RecordOf(base, xs + [x], x.key) && li.key == x.key
    requires |li.files| == li.nlink && (li.createdPath == -1 || LinkShape(li))
    ensures LinksTrack(base, xs + [x], links[FindLink(links, x.key) := li])
  {
    hide Group, RecordOf;
    var at := FindLink(links, x.key);
    var links' := links[at := li];
    assert links[at].key == x.key;
    forall key: Key
      ensures
        var i := FindLink(links', key);
        if Group(xs + [x], key) == [] then i == |links'| else i < |links'| && links'[i] == RecordOf(base, xs + [x], key)
    {
      GroupAppend(xs, x, key);
      FindLinkUpdated(links, at, li, key);
      if !InGroup(x, key) && Group(xs, key) != [] {
        SameRecord(base, xs, x, key);
      }
    }
  }

  /** An entry outside a group leaves its record alone. */
  lemma {:induction false} SameRecord(base: Fs, xs: seq<Item>, x: Item, key: Key)
    requires !InGroup(x, key) && Group(xs, key) != []
    ensures Group(xs + [x], key) == Group(xs, key) && RecordOf(base, xs + [x], key) == RecordOf(base, xs, key)
  {
    hide Group, Stall, ExpectedLink;
    GroupAppend(xs, x, key);
    StallAppend(base, xs, x, key);
  }

  lemma {:induction false} FindLinkUpdated(links: seq<HardLink>, at: nat, li: HardLink, key: Key)
    requires at < |links| && links[at].key == li.key
    ensures FindLink(links[at := li], key) == FindLink(links, key)
  {
    var links', i := links[at := li], FindLink(links, key);
    var i' := FindLink(links', key);
    assert forall k :: 0 <= k < |links| ==> links'[k].key == links[k].key;
    if i < |links| {
      assert links'[i].key == key;
    }
    if i' < |links| {
      assert links[i'].key == key;
    }
  }

  lemma {:induction false} FindLinkAdded(li: HardLink, links: seq<HardLink>, key: Key)
    ensures
      var i := FindLink([li] + links, key);
      if li.key == key then i == 0
      else i == 1 + FindLink(links, key) && (i <= |links| ==> ([li] + links)[i] == links[i - 1])
  {
    assert ([li] + links)[1..] == links;
  }

  lemma {:induction false} KeysAdded(li: HardLink, links: seq<HardLink>)
    requires Shapes(links) && DistinctKeys(links) && FindLink(links, li.key) == |links|
    requires |li.files| == li.nlink && (li.createdPath == -1 || LinkShape(li))
    ensures Shapes([li] + links) && DistinctKeys([li] + links)
  {
    var links' := [li] + links;
    assert forall k :: 0 < k < |links'| ==> links'[k] == links[k - 1];
  }

  lemma {:induction false} LinksTrackAdded(base: Fs, xs: seq<Item>, x: Item, links: seq<HardLink>, li: HardLink)
    requires Multi(x) && LinksTrack(base, xs, links) && Group(xs, x.key) == [] && Group(xs + [x], x.key) != []
    requires li == RecordOf(base, xs + [x], x.key) && li.key == x.key
    requires |li.files| == li.nlink && (li.createdPath == -1 || LinkShape(li))
    ensures LinksTrack(base, xs + [x], [li] + links)
  {
    hide Group, RecordOf;
    var links' := [li] + links;
    assert FindLink(links, x.key) == |links|;
    forall key: Key
      ensures
        var i := FindLink(links', key);
        if Group(xs + [x], key) == [] then i == |links'| else i < |links'| && links'[i] == RecordOf(base, xs + [x], key)
    {
      GroupAppend(xs, x, key);
      FindLinkAdded(li, links, key);
      if !InGroup(x, key) && Group(xs, key) != [] {
        SameRecord(base, xs, x, key);
      }
    }
    KeysAdded(li, links);
  }

  lemma {:induction false} LinksTrackSame(base: Fs, xs: seq<Item>, x: Item, links: seq<HardLink>)
    requires !Multi(x) && LinksTrack(base, xs, links)
    ensures LinksTrack(base, xs + [x], links)
  {
    hide Group, RecordOf;
    forall key: Key
      ensures Group(xs + [x], key) == Group(xs, key)
      ensures Group(xs, key) != [] ==> RecordOf(base, xs + [x], key) == RecordOf(base, xs, key)
    {
      GroupAppend(xs, x, key);
      if Group(xs, key) != [] {
        SameRecord(base, xs, x, key);
      }
    }
  }

  /** The list with the group of `x` as expected after `x`. */
  function LinksAfter(base: Fs, xs: seq<Item>, x: Item, links: seq<HardLink>): (r: seq<HardLink>)
    requires Multi(x) && Group(xs + [x], x.key) != []
    requires Group(xs, x.key) != [] ==> FindLink(links, x.key) < |links|
  {
    var li := RecordOf(base, xs + [x], x.key);
    if Group(xs, x.key) == [] then [li] + links else links[FindLink(links, x.key) := li]
  }

  lemma {:induction false} LinksAfterTrack(base: Fs, xs: seq<Item>, x: Item, links: seq<HardLink>)
    requires Multi(x) && LinksTrack(base, xs, links) && RunsOn(base, xs + [x])
    ensures Group(xs + [x], x.key) != [] && (Group(xs, x.key) != [] ==> FindLink(links, x.key) < |links|)
    ensures LinksTrack(base, xs + [x], LinksAfter(base, xs, x, links))
  {
    hide Group, FindLink, ExpectedLink, RunsOn, Stall, FirstData;
    GroupAppend(xs, x, x.key);
    GroupFits(base, xs + [x], x.key);
    SlotFound(Group(xs + [x], x.key), Stall(base, xs + [x], x.key));
    ExpectedKey(Group(xs + [x], x.key), Stall(base, xs + [x], x.key));
    if Group(xs, x.key) == [] {
      LinksTrackAdded(base, xs, x, links, RecordOf(base, xs + [x], x.key));
    } else {
      LinksTrackUpdated(base, xs, x, links, RecordOf(base, xs + [x], x.key));
    }
  }

  lemma {:induction false} ExpectedKey(g: seq<Item>, r: nat)
    requires g != [] && g[0].nlink > 1 && FirstData(g) <= r <= |g|
    ensures ExpectedLink(g, r).key == g[0].key
  {
  }

  /** Storing the expected record where the entry was enrolled gives the list expected after it. */
  lemma {:induction false} StoredAfter(base: Fs, xs: seq<Item>, x: Item, links: seq<HardLink>)
    requires Multi(x) && LinksTrack(base, xs, links) && RunsOn(base, xs)
      && !Full(Group(xs, x.key), Stall(base, xs, x.key))
    ensures Group(xs + [x], x.key) == Group(xs, x.key) + [x]
    ensures
      var g, r, e := Group(xs, x.key), Stall(base, xs, x.key), Enrolled(links, x);
      && Room(g, r)
      && (g != [] ==> JoinSlot(g, r) < g[0].nlink && FindLink(links, x.key) < |links| && g[0].key == x.key)
      && e.Slotted? && e.slot == JoinSlot(g, r) && e.at < |e.links| && e.links[e.at] == Joined(g, r, x)
      && e.links[e.at := RecordOf(base, xs + [x], x.key)] == LinksAfter(base, xs, x, links)
  {
    hide FirstData, FindLink, Group, Enrolled, JoinSlot, ExpectedLink, LinksTrack, Joined, Full, Fits, RunsOn, Stall,
      RecordOf;
    GroupAppend(xs, x, x.key);
    EmptyStall(base, xs, x.key);
    var g, r := Group(xs, x.key), Stall(base, xs, x.key);
    if g != [] {
      GroupFits(base, xs, x.key);
    }
    EnrolledFits(base, xs, x, links);
    EmptyNotFull();
    if g == [] {
      var li := RecordOf(base, xs + [x], x.key);
      assert ([Joined(g, r, x)] + links)[0 := li] == [li] + links;
    }
  }

  // ---------- the file system without slots and lists ----------

  /** The node an entry outside the groups leaves behind. */
  function OwnNode(x: Item): (n: Node)
    requires !Multi(x) && Simple(x)
  {
    match x.kind
    case RegularFile => Regular(x.data)
    case DirectoryFile => Directory
    case SymlinkFile => Symlink(Target(x))
    case FifoFile => Fifo
    case DeviceFile(rdev) => Device(rdev)
  }

  /** The directories on the way to `path` have been made. */
  function WayTo(fs: Fs, path: PathName): (fs': Fs) {
    if path == [] then fs
    else
      match fs.MakeLeading(path, 1)
      case None => fs
      case Some(led) => led
  }

  ghost function Paths(g: seq<Item>): (ps: set<PathName>) {
    set k | 0 <= k < |g| :: g[k].path
  }

  /** All of `ps` are names of the node of `c`. */
  ghost function LinkAll(fs: Fs, c: PathName, ps: set<PathName>): (fs': Fs)
    requires c in fs.names
  {
    Fs(map p | p in fs.names.Keys + ps :: if p in ps then fs.names[c] else fs.names[p], fs.nodes)
  }

  /** What one entry of a run that goes on does to the file system. */
  ghost function Entered(base: Fs, xs: seq<Item>, fs: Fs, x: Item): (fs': Fs)
  {
    var g := Group(xs, x.key);
    if !Multi(x) then
      var led := WayTo(fs, x.path);
      if !Simple(x) then fs
      else if x.kind.RegularFile? then led.Create(x.path, OwnNode(x))
      else led.Place(x.path, OwnNode(x))
    else if Fails(base, xs, x) then
      var p := StallPath(base, xs, x);
      if fs.IsDir(p) then fs else fs.Unlink(p)
    else if Late(xs, x) then
      if CreatedPath(g) in fs.names then fs.Link(CreatedPath(g), x.path) else fs
    else if HasData(x) then
      LinkAll(WayTo(fs, x.path).Create(x.path, Regular(x.data)), x.path, Paths(g))
    else fs
  }

  /**
   * The file system after a run that goes on: entries outside the groups bring their own node, the data of a group
   * brings a node for all names that wait for it, a later name joins it, and a later name that cannot be linked is
   * unlinked.
   */
  ghost function Reference(base: Fs, xs: seq<Item>): (fs: Fs)
  {
    if xs == [] then base else Entered(base, xs[..|xs| - 1], Reference(base, xs[..|xs| - 1]), xs[|xs| - 1])
  }

  // ---------- what the reference keeps ----------

  /** The directories are those that were there and those that entries asked for. */
  ghost predicate DirsTrack(base: Fs, xs: seq<Item>, fs: Fs) {
    forall p :: fs.IsDir(p) <==> Dirs(base, xs, p)
  }

  /** Only names of symbolic links are symbolic links. */
  ghost predicate LinkNamesTrack(base: Fs, xs: seq<Item>, fs: Fs) {
    forall p :: fs.IsLink(p) ==> base.IsLink(p) || LinkEntry(xs, p)
  }

  /** What a group that has not stalled links to is there, and is no symbolic link. */
  ghost predicate NameTracks(base: Fs, xs: seq<Item>, fs: Fs, key: Key) {
    var g := Group(xs, key);
    FirstData(g) < |g| == Stall(base, xs, key) ==> CreatedPath(g) in fs.names && !fs.IsLink(CreatedPath(g))
  }

  ghost predicate NamesTrack(base: Fs, xs: seq<Item>, fs: Fs) {
    forall key: Key :: NameTracks(base, xs, fs, key)
  }

  ghost predicate FsTracks(base: Fs, xs: seq<Item>, fs: Fs) {
    fs.Valid() && DirsTrack(base, xs, fs) && LinkNamesTrack(base, xs, fs) && NamesTrack(base, xs, fs)
  }

  /** What an entry makes of the kinds of names: some become directories, some links, some go. */
  ghost predicate Kinds(fs: Fs, fs': Fs, dirs: set<PathName>, links: set<PathName>, gone: set<PathName>)
  {
    && fs'.Valid()
    && (forall p :: fs'.IsDir(p) <==> fs.IsDir(p) || p in dirs)
    && (forall p :: fs'.IsLink(p) ==> fs.IsLink(p) || p in links)
    && (forall p :: p in fs.names && p !in gone ==> p in fs'.names)
  }

  ghost function LeadingSet(path: PathName): (ps: set<PathName>)
    ensures forall q :: q in ps <==> IsLeading(q, path)
  {
    var ps := set i | 1 <= i < |path| && path[i] == SLASH :: path[..i];
    assert forall q :: IsLeading(q, path) ==> q == path[..|q|] && q in ps;
    ps
  }

  lemma {:induction false} KindsOfWay(fs: Fs, path: PathName)
    requires fs.Valid() && path != [] && forall q :: IsLeading(q, path) ==> !fs.IsLink(q)
    ensures fs.MakeLeading(path, 1) == Some(WayTo(fs, path))
    ensures Kinds(fs, WayTo(fs, path), LeadingSet(path), {}, {}) && Led(fs, WayTo(fs, path), path, 1)
  {
    hide Untouched;
    LeadingMade(fs, path, 1);
    var led := WayTo(fs, path);
    forall p
      ensures led.IsDir(p) <==> fs.IsDir(p) || IsLeading(p, path)
      ensures led.IsLink(p) ==> fs.IsLink(p)
      ensures p in fs.names ==> p in led.names
    {
      if !(IsLeading(p, path) && !fs.IsDir(p)) {
        UntouchedNode(fs, led, p);
      }
    }
  }

  lemma {:induction false} KindsOfCreate(fs: Fs, path: PathName, node: Node)
    requires fs.Valid() && (node.Directory? || !fs.IsDir(path))
    ensures
      var dirs, links := if node.Directory? then {path} else {}, if node.Symlink? then {path} else {};
      Kinds(fs, fs.Create(path, node), dirs, links, {}) && Kinds(fs, fs.Place(path, node), dirs, links, {})
  {
    hide Untouched;
    Created(fs, path, node);
    forall p | p != path
      ensures fs.Create(path, node).IsDir(p) <==> fs.IsDir(p)
      ensures fs.Create(path, node).IsLink(p) <==> fs.IsLink(p)
    {
      OthersUntouched(fs, path, node, p);
      UntouchedNode(fs, fs.Create(path, node), p);
    }
  }

  lemma {:induction false} KindsTogether(a: Fs, b: Fs, c: Fs, dirs: set<PathName>, dirs': set<PathName>,
                                         links: set<PathName>)
    requires Kinds(a, b, dirs, {}, {}) && Kinds(b, c, dirs', links, {})
    ensures Kinds(a, c, dirs + dirs', links, {})
  {
  }

  /** Names that are no directories come to share a node that is neither a directory nor a symbolic link. */
  lemma {:induction false} KindsOfLinkAll(fs: Fs, c: PathName, ps: set<PathName>)
    requires fs.Valid() && c in fs.names && !fs.IsDir(c) && !fs.IsLink(c) && forall p :: p in ps ==> !fs.IsDir(p)
    ensures Kinds(fs, LinkAll(fs, c, ps), {}, {}, {})
  {
  }

  lemma {:induction false} KindsOfUnlink(fs: Fs, p: PathName)
    requires fs.Valid() && !fs.IsDir(p)
    ensures Kinds(fs, fs.Unlink(p), {}, {}, {p})
  {
  }

  lemma {:induction false} LinkIsLinkAll(fs: Fs, c: PathName, p: PathName)
    requires c in fs.names
    ensures fs.Link(c, p) == LinkAll(fs, c, {p})
  {
    assert fs.Link(c, p).names == LinkAll(fs, c, {p}).names;
  }

  /** Kinds that change as the entries say keep the file system as expected. */
  lemma {:induction false} TracksFromKinds(base: Fs, xs: seq<Item>, x: Item, fs: Fs, fs': Fs, dirs: set<PathName>,
                                           links: set<PathName>, gone: set<PathName>)
    requires FsTracks(base, xs, fs) && Kinds(fs, fs', dirs, links, gone) && LinksAside(xs, x)
    requires forall p :: p in dirs <==> MakesDirs(xs, x) && Wants(x, p)
    requires forall p :: p in links ==> x.kind.SymlinkFile? && p == x.path
    requires forall key: Key :: !InGroup(x, key) && FirstData(Group(xs, key)) < |Group(xs, key)| ==>
      CreatedPath(Group(xs, key)) !in gone
    requires Multi(x) ==> NameTracks(base, xs + [x], fs', x.key)
    ensures FsTracks(base, xs + [x], fs')
  {
    hide Group, Dirs, Stall, FirstData;
    forall p
      ensures fs'.IsDir(p) <==> Dirs(base, xs + [x], p)
    {
      DirsAppend(base, xs, x, p);
    }
    forall p | fs'.IsLink(p)
      ensures base.IsLink(p) || LinkEntry(xs + [x], p)
    {
      LinkEntryAppend(xs, x, p);
    }
    forall key: Key
      ensures NameTracks(base, xs + [x], fs', key)
    {
      if InGroup(x, key) {
        assert key == x.key;
      } else {
        assert NameTracks(base, xs, fs, key);
        GroupAppend(xs, x, key);
        StallAppend(base, xs, x, key);
        if FirstData(Group(xs, key)) < |Group(xs, key)| {
          GroupEntry(xs, key, FirstData(Group(xs, key)));
        }
      }
    }
  }

  lemma {:induction false} LinkEntryAppend(xs: seq<Item>, x: Item, p: PathName)
    ensures LinkEntry(xs + [x], p) <==> LinkEntry(xs, p) || (x.kind.SymlinkFile? && x.path == p)
  {
    var ys := xs + [x];
    assert ys[|xs|] == x && forall i :: 0 <= i < |xs| ==> ys[i] == xs[i];
  }

  /** An entry of a group is an entry. */
  lemma {:induction false} GroupEntry(xs: seq<Item>, key: Key, k: nat)
    requires k < |Group(xs, key)|
    ensures exists i :: 0 <= i < |xs| && xs[i] == Group(xs, key)[k] && Multi(xs[i])
  {
    hide FirstData;
    var y := Group(xs, key)[k];
    assert y in xs;
  }

  /** No directory that the entry asks for is a symbolic link by now. */
  lemma {:induction false} WayIsStraight(base: Fs, xs: seq<Item>, x: Item, fs: Fs)
    requires FsTracks(base, xs, fs) && Straight(base, xs, x)
    ensures forall q :: Wants(x, q) ==> !fs.IsLink(q)
  {
  }

  lemma {:induction false} TracksAlone(base: Fs, xs: seq<Item>, x: Item, fs: Fs)
    requires FsTracks(base, xs, fs) && SteadyStep(base, xs, x) && Accepts(base, xs, x) && !Multi(x)
    ensures FsTracks(base, xs + [x], Entered(base, xs, fs, x))
  {
    hide Group, Dirs, Stall, FirstData, Harmless, GroundedBy;
    WayIsStraight(base, xs, x, fs);
    KindsOfWay(fs, x.path);
    var led, node := WayTo(fs, x.path), OwnNode(x);
    assert !IsLeading(x.path, x.path);
    KindsOfCreate(led, x.path, node);
    var fs' := Entered(base, xs, fs, x);
    var dirs, links := if node.Directory? then {x.path} else {}, if node.Symlink? then {x.path} else {};
    KindsTogether(fs, led, fs', LeadingSet(x.path), dirs, links);
    TracksFromKinds(base, xs, x, fs, fs', LeadingSet(x.path) + dirs, links, {});
  }

  /** The entry that brings the data: what holds before the waiting names are linked. */
  lemma {:induction false} CreatedClear(base: Fs, xs: seq<Item>, x: Item, fs: Fs)
    requires FsTracks(base, xs, fs) && SteadyStep(base, xs, x) && Creates(xs, x) && Clear(base, xs, x)
    ensures
      var created := WayTo(fs, x.path).Create(x.path, Regular(x.data));
      && x.path != [] && fs.MakeLeading(x.path, 1) == Some(WayTo(fs, x.path)) && !WayTo(fs, x.path).IsDir(x.path)
      && Kinds(fs, created, LeadingSet(x.path), {}, {}) && x.path in created.names
      && !created.IsDir(x.path) && !created.IsLink(x.path)
      && forall p :: p in Paths(Group(xs, x.key)) ==> p != x.path && Ready(created, p)
  {
    hide Group, Dirs, Stall, FirstData, Harmless, GroundedBy, Fs.Grounded;
    WayIsStraight(base, xs, x, fs);
    KindsOfWay(fs, x.path);
    var led := WayTo(fs, x.path);
    assert !IsLeading(x.path, x.path);
    KindsOfCreate(led, x.path, Regular(x.data));
    var created := led.Create(x.path, Regular(x.data));
    KindsTogether(fs, led, created, LeadingSet(x.path), {}, {});
    assert LeadingSet(x.path) + {} == LeadingSet(x.path);
    forall p | p in Paths(Group(xs, x.key))
      ensures p != x.path && Ready(created, p)
    {
      var k :| 0 <= k < |Group(xs, x.key)| && Group(xs, x.key)[k].path == p;
      assert !Hinders(base, xs, x, p);
      forall q | IsLeading(q, p)
        ensures created.IsDir(q)
      {
        assert DirsFor(base, xs, x, q);
      }
      GroundedFrom(created, p);
    }
  }

  lemma {:induction false} GroundedFrom(fs: Fs, p: PathName)
    requires p != [] && forall q :: IsLeading(q, p) ==> fs.IsDir(q)
    ensures fs.Grounded(p)
  {
    forall i | 1 <= i < |p| && p[i] == SLASH
      ensures fs.IsDir(p[..i])
    {
      assert IsLeading(p[..i], p);
    }
  }

  lemma {:induction false} TracksCreated(base: Fs, xs: seq<Item>, x: Item, fs: Fs)
    requires FsTracks(base, xs, fs) && SteadyStep(base, xs, x) && Creates(xs, x) && Clear(base, xs, x)
    ensures FsTracks(base, xs + [x], Entered(base, xs, fs, x))
  {
    hide Group, Dirs, Stall, FirstData, Harmless, GroundedBy, Fs.Grounded, Straight, Clear;
    CreatedClear(base, xs, x, fs);
    var g := Group(xs, x.key);
    var created := WayTo(fs, x.path).Create(x.path, Regular(x.data));
    KindsOfLinkAll(created, x.path, Paths(g));
    var fs' := LinkAll(created, x.path, Paths(g));
    KindsTogether(fs, created, fs', LeadingSet(x.path), {}, {});
    assert LeadingSet(x.path) + {} == LeadingSet(x.path);
    assert NameTracks(base, xs + [x], fs', x.key) by {
      GroupAppend(xs, x, x.key);
      FirstDataAppend(g, x);
      assert (g + [x])[|g|] == x;
    }
    TracksFromKinds(base, xs, x, fs, fs', LeadingSet(x.path), {}, {});
  }

  lemma {:induction false} TracksLate(base: Fs, xs: seq<Item>, x: Item, fs: Fs)
    requires FsTracks(base, xs, fs) && SteadyStep(base, xs, x) && Late(xs, x)
    ensures FsTracks(base, xs + [x], Entered(base, xs, fs, x))
  {
    hide Group, Dirs, Stall, FirstData, GroundedBy, Straight;
    var g, fs' := Group(xs, x.key), Entered(base, xs, fs, x);
    GroupAppend(xs, x, x.key);
    FirstDataAppend(g, x);
    StallAppend(base, xs, x, x.key);
    assert NameTracks(base, xs, fs, x.key);
    if Fails(base, xs, x) {
      var p := StallPath(base, xs, x);
      if fs.IsDir(p) {
        assert Kinds(fs, fs', {}, {}, {});
        TracksFromKinds(base, xs, x, fs, fs', {}, {}, {});
      } else {
        KindsOfUnlink(fs, p);
        TracksFromKinds(base, xs, x, fs, fs', {}, {}, {p});
      }
    } else {
      var c := CreatedPath(g);
      assert (g + [x])[FirstData(g)] == g[FirstData(g)];
      LinkIsLinkAll(fs, c, x.path);
      KindsOfLinkAll(fs, c, {x.path});
      TracksFromKinds(base, xs, x, fs, fs', {}, {}, {});
    }
  }

  lemma {:induction false} TracksDeferred(base: Fs, xs: seq<Item>, x: Item, fs: Fs)
    requires FsTracks(base, xs, fs) && SteadyStep(base, xs, x) && Multi(x) && !Late(xs, x) && !HasData(x)
    ensures FsTracks(base, xs + [x], Entered(base, xs, fs, x))
  {
    hide Group, Dirs, Stall, FirstData, GroundedBy, Straight, Harmless;
    var g := Group(xs, x.key);
    GroupAppend(xs, x, x.key);
    FirstDataAppend(g, x);
    assert NameTracks(base, xs + [x], fs, x.key);
    assert Kinds(fs, fs, {}, {}, {});
    TracksFromKinds(base, xs, x, fs, fs, {}, {}, {});
  }

  /** The reference stays as expected over every run that goes on. */
  lemma {:induction false} ReferenceTracks(base: Fs, xs: seq<Item>)
    requires base.Valid() && RunsOn(base, xs) && Steady(base, xs)
    ensures FsTracks(base, xs, Reference(base, xs))
    decreases |xs|
  {
    hide FsTracks, Entered, Accepts, SteadyStep;
    if xs == [] {
      NothingTracks(base);
    } else {
      var before, x := xs[..|xs| - 1], xs[|xs| - 1];
      assert before + [x] == xs;
      ReferenceTracks(base, before);
      EnteredTracks(base, before, x, Reference(base, before));
    }
  }

  lemma {:induction false} NothingTracks(base: Fs)
    requires base.Valid()
    ensures FsTracks(base, [], base)
  {
  }

  lemma {:induction false} EnteredTracks(base: Fs, xs: seq<Item>, x: Item, fs: Fs)
    requires FsTracks(base, xs, fs) && SteadyStep(base, xs, x) && Accepts(base, xs, x)
    ensures FsTracks(base, xs + [x], Entered(base, xs, fs, x))
  {
    hide FsTracks, Entered, SteadyStep, Clear, Group, FirstData, Full;
    if !Multi(x) {
      TracksAlone(base, xs, x, fs);
    } else if Late(xs, x) {
      TracksLate(base, xs, x, fs);
    } else if HasData(x) {
      TracksCreated(base, xs, x, fs);
    } else {
      TracksDeferred(base, xs, x, fs);
    }
  }

  // ---------- the record after an entry ----------

  /** An entry without data joins the waiting names. */
  lemma {:induction false} JoinedWhileWaiting(g: seq<Item>, x: Item)
    requires Multi(x) && Room(g, |g|) && FirstData(g) == |g|
    requires g != [] ==> g[0].key == x.key && JoinSlot(g, |g|) < g[0].nlink
    ensures
      var li, n := Joined(g, |g|, x), (g + [x])[0].nlink;
      && |g| < n && li == HardLink(x.key, n, n, -1, li.files) && |li.files| == n && JoinSlot(g, |g|) == |g|
      && (forall k :: 0 <= k < n ==>
            li.files[k] == if k < |g| then Some(g[k].path) else if k == |g| then Some(x.path) else None)
      && (!HasData(x) ==> FirstData(g + [x]) == |g + [x]| && li == ExpectedLink(g + [x], |g + [x]|))
  {
    FirstDataAppend(g, x);
    var li := Joined(g, |g|, x);
    if !HasData(x) {
      assert li.files == ExpectedLink(g + [x], |g + [x]|).files;
    }
  }

  /** The record with the slot of `x` marked as the created one. */
  function Marked(g: seq<Item>, x: Item): (li: HardLink)
    requires Multi(x) && (g != [] ==> g[0].nlink > 1 && FirstData(g) <= |g| && JoinSlot(g, |g|) < g[0].nlink)
  {
    Joined(g, |g|, x).(createdPath := |g|, linksLeft := (g + [x])[0].nlink - 1)
  }

  /** The data arrives: which names wait for it. */
  lemma {:induction false} WaitingPaths(g: seq<Item>, x: Item)
    requires Multi(x) && Room(g, |g|) && FirstData(g) == |g|
    requires g != [] ==> g[0].key == x.key && JoinSlot(g, |g|) < g[0].nlink
    ensures
      var li := Marked(g, x);
      && LinkShape(li) && li.files[|g|] == Some(x.path) && PendingCount(li, 0) == |g|
      && (forall p :: Waits(li, 0, p) <==> p in Paths(g))
  {
    JoinedWhileWaiting(g, x);
    var li := Marked(g, x);
    PendingRun(li, |g|, 0);
    forall p
      ensures Waits(li, 0, p) <==> p in Paths(g)
    {
      if k :| 0 <= k < |g| && g[k].path == p {
        assert IsPending(li, k);
      }
    }
  }

  /** The record once the waiting names are linked to the new file. */
  lemma {:induction false} CreatedNow(g: seq<Item>, x: Item, files: seq<Option<PathName>>)
    requires Multi(x) && Room(g, |g|) && FirstData(g) == |g| && HasData(x)
    requires g != [] ==> g[0].key == x.key && JoinSlot(g, |g|) < g[0].nlink
    requires Cleared(Marked(g, x), 0, files)
    ensures FirstData(g + [x]) == |g|
    ensures
      var n := (g + [x])[0].nlink;
      Marked(g, x).(files := files, linksLeft := n - 1 - |g|) == ExpectedLink(g + [x], |g + [x]|)
  {
    JoinedWhileWaiting(g, x);
    FirstDataAppend(g, x);
    assert files == ExpectedLink(g + [x], |g + [x]|).files;
  }

  /** A further name is linked at once. */
  lemma {:induction false} LinkedNow(g: seq<Item>, x: Item)
    requires Multi(x) && Room(g, |g|) && FirstData(g) < |g| && g[0].key == x.key && JoinSlot(g, |g|) < g[0].nlink
    requires x.path != CreatedPath(g)
    ensures FirstData(g + [x]) == FirstData(g)
    ensures
      var li, f := Joined(g, |g|, x), FirstData(g);
      && LinkShape(li) && li.createdPath == f && li.files[f] == Some(CreatedPath(g)) && PendingCount(li, 0) == 1
      && (forall p :: Waits(li, 0, p) <==> p == x.path)
      && (forall files :: Cleared(li, 0, files) ==>
            li.(files := files, linksLeft := li.linksLeft - 1) == ExpectedLink(g + [x], |g + [x]|))
  {
    FirstDataAppend(g, x);
    var li, s := Joined(g, |g|, x), JoinSlot(g, |g|);
    assert forall k :: 0 <= k < |li.files| ==> (IsPending(li, k) <==> k == s);
    PendingSingle(li, s, 0);
    forall files | Cleared(li, 0, files)
      ensures li.(files := files, linksLeft := li.linksLeft - 1) == ExpectedLink(g + [x], |g + [x]|)
    {
      assert files == ExpectedLink(g + [x], |g + [x]|).files;
    }
    assert IsPending(li, s) && li.files[s].value == x.path;
  }

  lemma {:induction false} StoredContent(g: seq<Item>, r: nat, x: Item, i: nat)
    requires FirstData(g) < r <= |g|
    ensures FirstData(g + [x]) == FirstData(g)
    ensures SlotContent(g + [x], r, i) == if i == JoinSlot(g, r) then Some(x.path) else SlotContent(g, r, i)
  {
    hide FirstData;
    FirstDataAppend(g, x);
    var h := g + [x];
    assert h[|g|] == x && forall k :: 0 <= k < |g| ==> h[k] == g[k];
  }

  /** Once linking fails, names are only stored. */
  lemma {:induction false} StoredOnly(g: seq<Item>, r: nat, x: Item)
    requires Multi(x) && Fits(g, r) && !Full(g, r) && g[0].key == x.key && JoinSlot(g, r) < g[0].nlink
    requires FirstData(g) < r <= |g|
    ensures FirstData(g + [x]) == FirstData(g) && Joined(g, r, x) == ExpectedLink(g + [x], r)
  {
    hide FirstData, SlotContent, JoinSlot, Full;
    var li, h := Joined(g, r, x), g + [x];
    StoredContent(g, r, x, 0);
    forall i | 0 <= i < |li.files|
      ensures li.files[i] == SlotContent(h, r, i)
    {
      StoredContent(g, r, x, i);
    }
    assert li.files == ExpectedLink(h, r).files;
  }

  /** The first waiting name of such a group is the one at which linking failed first. */
  lemma {:induction false} StuckSlot(h: seq<Item>, r: nat)
    requires Fits(h, r) && FirstData(h) < r < |h|
    ensures
      var li, f := ExpectedLink(h, r), FirstData(h);
      var s := SlotOf(f, 0);
      && LinkShape(li) && li.createdPath == f && li.files[f] == Some(h[f].path)
      && s < li.nlink && IsPending(li, s) && li.files[s] == Some(h[r].path)
      && (forall k :: 0 <= k < s ==> !IsPending(li, k))
  {
    var li, f := ExpectedLink(h, r), FirstData(h);
    assert li.files[f] == SlotContent(h, r, f) && li.files[SlotOf(f, 0)] == SlotContent(h, r, SlotOf(f, 0));
  }

  // ---------- one entry ----------

  /** What is known before each entry of a run that goes on. */
  ghost predicate Tracks(base: Fs, xs: seq<Item>, st: State)
  {
    RunsOn(base, xs) && Shapes(st.links) && LinksTrack(base, xs, st.links) && FsTracks(base, xs, st.fs)
  }

  /** The run goes on with what is expected after `x`. */
  ghost predicate GoesAsExpected(base: Fs, xs: seq<Item>, x: Item, st: State, r: Step) {
    && GoesOn(r) && r.st.fs == Entered(base, xs, st.fs, x)
    && (if !Multi(x) then r.st.links == st.links
        else
          && Group(xs + [x], x.key) != [] && (Group(xs, x.key) != [] ==> FindLink(st.links, x.key) < |st.links|)
          && r.st.links == LinksAfter(base, xs, x, st.links))
  }

  /**
   * An entry outside the groups, exactly: an empty name is undefined, and otherwise it is installed or ends the run.
   */
  lemma {:induction false} StepAlone(base: Fs, xs: seq<Item>, x: Item, st: State)
    requires Tracks(base, xs, st) && SteadyStep(base, xs, x) && !Multi(x)
    ensures
      var r := InstallItem(st, x);
      && (r == Overrun <==> x.path == [] || WrapsSize(x))
      && (if Accepts(base, xs, x) then GoesAsExpected(base, xs, x, st, r) else !GoesOn(r))
  {
    hide Group, Dirs, Stall, FirstData, Harmless, GroundedBy, RunsOn, LinksTrack, LinksAside, Kinds, Led;
    if x.path != [] {
      WayIsStraight(base, xs, x, st.fs);
      KindsOfWay(st.fs, x.path);
      var led := WayTo(st.fs, x.path);
      assert led.IsDir(x.path) <==> Dirs(base, xs, x.path) by {
        WayKeepsEnd(st.fs, x.path);
      }
      assert x.kind.DirectoryFile? ==> !led.IsLink(x.path) by {
        WayKeepsEnd(st.fs, x.path);
      }
      AloneExactly(st.(fs := led), x);
    }
  }

  lemma {:induction false} WayKeepsEnd(fs: Fs, path: PathName)
    requires fs.Valid() && path != [] && forall q :: IsLeading(q, path) ==> !fs.IsLink(q)
    ensures WayTo(fs, path).IsDir(path) <==> fs.IsDir(path)
    ensures WayTo(fs, path).IsLink(path) <==> fs.IsLink(path)
  {
    hide Untouched;
    KindsOfWay(fs, path);
    assert !IsLeading(path, path);
    UntouchedNode(fs, WayTo(fs, path), path);
  }

  /**
   * With the directories on its way there, an entry goes on exactly by its kind, its size and what stands at its
   * path.
   */
  lemma {:induction false} AloneExactly(st: State, x: Item)
    requires !Multi(x) && (x.kind.DirectoryFile? ==> !st.fs.IsLink(x.path))
    ensures
      var r := InstallAlone(st, x);
      && (r.Overrun? <==> WrapsSize(x)) && !r.Beyond?
      && (GoesOn(r) <==> Simple(x) && (x.kind.DirectoryFile? || !st.fs.IsDir(x.path)))
      && (GoesOn(r) ==>
            && r.st.links == st.links
            && (r.st.fs
                == if x.kind.RegularFile? then st.fs.Create(x.path, OwnNode(x)) else st.fs.Place(x.path, OwnNode(x))))
  {
  }

  /** Without data and without a file, a name is only stored. */
  lemma {:induction false} StepDeferred(base: Fs, xs: seq<Item>, x: Item, st: State)
    requires Tracks(base, xs, st) && Multi(x) && !Full(Group(xs, x.key), Stall(base, xs, x.key))
    requires !Late(xs, x) && !HasData(x)
    ensures GoesAsExpected(base, xs, x, st, InstallItem(st, x))
  {
    hide FindLink, Group, RunsOn, FsTracks, Enrolled, LinksAfter, ExpectedLink, FirstData, Full, Stall, JoinSlot,
      Joined, LinksTrack, Room;
    var g := Group(xs, x.key);
    StoredAfter(base, xs, x, st.links);
    JoinedWhileWaiting(g, x);
    StallAppend(base, xs, x, x.key);
    var e := Enrolled(st.links, x);
    assert e.links[e.at := e.links[e.at]] == e.links;
  }

  /** The first data creates the file and links all waiting names to it. */
  lemma {:induction false} StepCreated(base: Fs, xs: seq<Item>, x: Item, st: State)
    requires Tracks(base, xs, st) && SteadyStep(base, xs, x) && !Full(Group(xs, x.key), Stall(base, xs, x.key))
    requires Creates(xs, x) && Clear(base, xs, x)
    ensures GoesAsExpected(base, xs, x, st, InstallItem(st, x))
  {
    hide FindLink, Group, CreateLinks, Enrolled, LinksTrack, ExpectedLink, Waits, LinksAfter, RunsOn, Room, Relinked,
      FirstData, Full, Stall, JoinSlot, Joined, FsTracks, SteadyStep, Ready, Kinds, Paths, WayTo, Clear;
    var g := Group(xs, x.key);
    StoredAfter(base, xs, x, st.links);
    StallAppend(base, xs, x, x.key);
    JoinedWhileWaiting(g, x);
    WaitingPaths(g, x);
    CreatedClear(base, xs, x, st.fs);
    var li, created := Marked(g, x), WayTo(st.fs, x.path).Create(x.path, Regular(x.data));
    assert created.Valid() by {
      CreatedValid(base, xs, x, st.fs);
    }
    assert AllReady(created, li, 0, x.path);
    CreateLinksWorks(created, li, 0);
    var r := CreateLinks(created, li, 0).value;
    CreatedNow(g, x, r.li.files);
    RelinkedIsLinkAll(created, r.fs, li, x.path, Paths(g));
    FirstOutcome(st, x, Enrolled(st.links, x), li, created, r);
  }

  lemma {:induction false} CreatedValid(base: Fs, xs: seq<Item>, x: Item, fs: Fs)
    requires FsTracks(base, xs, fs) && SteadyStep(base, xs, x) && Creates(xs, x) && Clear(base, xs, x)
    ensures WayTo(fs, x.path).Create(x.path, Regular(x.data)).Valid()
  {
    hide FsTracks, SteadyStep, Clear;
    CreatedClear(base, xs, x, fs);
  }

  lemma {:induction false} RelinkedIsLinkAll(fs: Fs, fs': Fs, li: HardLink, c: PathName, ps: set<PathName>)
    requires c in fs.names && Relinked(fs, fs', li, 0, c) && forall p :: Waits(li, 0, p) <==> p in ps
    ensures fs' == LinkAll(fs, c, ps)
  {
    hide Waits;
    assert fs'.names == LinkAll(fs, c, ps).names;
  }

  /** InstallItem on the entry that creates the file of its group. */
  lemma {:induction false} FirstOutcome(st: State, x: Item, e: Slotted, li: HardLink, created: Fs, r: Linking)
    requires Multi(x) && HasData(x) && Shapes(st.links) && e == Enrolled(st.links, x) && e.Slotted? && x.path != []
    requires e.links[e.at].createdPath == -1 && st.fs.MakeLeading(x.path, 1) == Some(WayTo(st.fs, x.path))
    requires created == if WayTo(st.fs, x.path).IsDir(x.path) then WayTo(st.fs, x.path)
                        else WayTo(st.fs, x.path).Create(x.path, Regular(x.data))
    requires li == e.links[e.at].(createdPath := e.slot, linksLeft := e.links[e.at].linksLeft - 1)
    requires LinkShape(li) && CreateLinks(created, li, 0) == Some(r)
    ensures
      var st' := State(r.fs, e.links[e.at := r.li], st.failed || r.rc != 0);
      InstallItem(st, x) == if WayTo(st.fs, x.path).IsDir(x.path) && r.rc == 0 then Astray(st') else Went(r.rc, st')
  {
    hide Enrolled, CreateLinks, WayTo;
  }

  /** A further name of a created group is linked at once. */
  lemma {:induction false} StepLinked(base: Fs, xs: seq<Item>, x: Item, st: State)
    requires Tracks(base, xs, st) && SteadyStep(base, xs, x) && !Full(Group(xs, x.key), Stall(base, xs, x.key))
    requires Late(xs, x) && !Fails(base, xs, x)
    ensures GoesAsExpected(base, xs, x, st, InstallItem(st, x))
  {
    hide FindLink, Group, CreateLinks, Enrolled, LinksTrack, ExpectedLink, Waits, LinksAfter, RunsOn, Relinked,
      FirstData, Full, Stall, JoinSlot, Joined, Dirs, Room, Cleared;
    var g := Group(xs, x.key);
    StoredAfter(base, xs, x, st.links);
    StallAppend(base, xs, x, x.key);
    assert NameTracks(base, xs, st.fs, x.key);
    var li, c := Joined(g, |g|, x), CreatedPath(g);
    LinkedNow(g, x);
    GroundedFrom(st.fs, x.path);
    assert AllReady(st.fs, li, 0, c);
    CreateLinksWorks(st.fs, li, 0);
    var r := CreateLinks(st.fs, li, 0).value;
    RelinkedIsLinkAll(st.fs, r.fs, li, c, {x.path});
    LinkIsLinkAll(st.fs, c, x.path);
  }

  /** Why the linking of a group has stalled. */
  lemma {:induction false} StallReason(base: Fs, xs: seq<Item>, key: Key)
    requires Stall(base, xs, key) < |Group(xs, key)|
    ensures
      var g, r := Group(xs, key), Stall(base, xs, key);
      FirstData(g) < r && (g[r].path == CreatedPath(g) || Dirs(base, xs, CreatedPath(g)) || Dirs(base, xs, g[r].path))
  {
    hide FirstData, Dirs, Stall, Group;
    var before, x := xs[..|xs| - 1], xs[|xs| - 1];
    if xs == [] {
      NoGroup(key);
    } else {
      assert before + [x] == xs;
      var g, r := Group(before, key), Stall(base, before, key);
      GroupAppend(before, x, key);
      StallAppend(base, before, x, key);
      FirstDataAppend(g, x);
      assert forall k :: 0 <= k < |g| ==> (g + [x])[k] == g[k];
      if r < |g| {
        StallReason(base, before, key);
      }
      if FirstData(g) < |g| {
        DirsAppend(base, before, x, CreatedPath(g));
      }
      if r < |g| {
        DirsAppend(base, before, x, g[r].path);
      }
      DirsAppend(base, before, x, x.path);
    }
  }

  lemma {:induction false} NoGroup(key: Key)
    ensures Group([], key) == []
  {
  }

  /** The way to no group entry goes through a symbolic link. */
  lemma {:induction false} GroupsStraight(base: Fs, xs: seq<Item>, i: nat, q: PathName)
    requires Steady(base, xs) && i < |xs| && Multi(xs[i]) && IsLeading(q, xs[i].path)
    ensures !base.IsLink(q) && !LinkEntry(xs, q)
  {
    hide Harmless, Fails, GroundedBy, Group, FirstData;
    var before, x := xs[..|xs| - 1], xs[|xs| - 1];
    assert before + [x] == xs;
    LinkEntryAppend(before, x, q);
    if i < |xs| - 1 {
      GroupsStraight(base, before, i, q);
      assert before[i] == xs[i];
    } else {
      assert Wants(x, q);
    }
  }

  lemma {:induction false} GroupUncrossed(base: Fs, xs: seq<Item>, fs: Fs, key: Key, k: nat)
    requires Steady(base, xs) && LinkNamesTrack(base, xs, fs) && k < |Group(xs, key)|
    ensures !fs.Crosses(Group(xs, key)[k].path)
  {
    hide Steady, Group, FirstData;
    var p := Group(xs, key)[k].path;
    GroupEntry(xs, key, k);
    var j :| 0 <= j < |xs| && xs[j] == Group(xs, key)[k] && Multi(xs[j]);
    forall i | 1 <= i < |p| && p[i] == SLASH
      ensures !fs.IsLink(p[..i])
    {
      assert IsLeading(p[..i], p);
      GroupsStraight(base, xs, j, p[..i]);
    }
  }

  lemma {:induction false} LinkNamesGrow(base: Fs, xs: seq<Item>, x: Item, fs: Fs)
    requires LinkNamesTrack(base, xs, fs)
    ensures LinkNamesTrack(base, xs + [x], fs)
  {
    forall p | fs.IsLink(p)
      ensures base.IsLink(p) || LinkEntry(xs + [x], p)
    {
      LinkEntryAppend(xs, x, p);
    }
  }

  /** Linking fails at the name at which the group stalls, which is unlinked unless it is a directory. */
  lemma {:induction false} StallFails(base: Fs, xs: seq<Item>, fs: Fs, key: Key)
    requires Steady(base, xs) && fs.Valid() && LinkNamesTrack(base, xs, fs) && Group(xs, key) != []
    requires forall p :: Dirs(base, xs, p) ==> fs.IsDir(p)
    requires Stall(base, xs, key) < |Group(xs, key)| && Fits(Group(xs, key), Stall(base, xs, key))
    ensures LinkShape(RecordOf(base, xs, key))
    ensures
      var li, p := RecordOf(base, xs, key), Group(xs, key)[Stall(base, xs, key)].path;
      CreateLinks(fs, li, 0)
      == Some(if fs.IsDir(p) then Linking(CPIOERR_UNLINK_FAILED, fs, li)
              else Linking(CPIOERR_LINK_FAILED, fs.Unlink(p), li))
  {
    hide Steady, Group, FirstData, Stall, Dirs, CreateLinks, LinkNamesTrack, ExpectedLink, Fits, Fs.Crosses;
    var g, r := Group(xs, key), Stall(base, xs, key);
    StallReason(base, xs, key);
    StuckSlot(g, r);
    GroupUncrossed(base, xs, fs, key, r);
    CreateLinksFails(fs, RecordOf(base, xs, key), 0, SlotOf(FirstData(g), 0));
  }

  /** A name that cannot be linked: it is stored, the name at which linking fails is unlinked, and the run goes on. */
  lemma {:induction false} StepStuck(base: Fs, xs: seq<Item>, x: Item, st: State)
    requires Tracks(base, xs, st) && Steady(base, xs + [x]) && !Full(Group(xs, x.key), Stall(base, xs, x.key))
    requires Fails(base, xs, x)
    ensures GoesAsExpected(base, xs, x, st, InstallItem(st, x))
  {
    hide FindLink, Group, CreateLinks, Enrolled, LinksTrack, ExpectedLink, LinksAfter, RunsOn, FirstData, Full, Stall,
      Fits, JoinSlot, Joined, Dirs, Steady, LinkNamesTrack, NamesTrack;
    var g, r, key := Group(xs, x.key), Stall(base, xs, x.key), x.key;
    var ys, h := xs + [x], g + [x];
    StoredAfter(base, xs, x, st.links);
    StallAppend(base, xs, x, key);
    assert Stall(base, ys, key) == r;
    StoredOnly(g, r, x);
    FitsAppend(g, r, x, r);
    LinkNamesGrow(base, xs, x, st.fs);
    forall p | Dirs(base, ys, p)
      ensures st.fs.IsDir(p)
    {
      DirsAppend(base, xs, x, p);
    }
    StallFails(base, ys, st.fs, key);
    LateOutcome(st, x, Enrolled(st.links, x));
  }

  /** InstallItem on an entry whose group has its file. */
  lemma {:induction false} LateOutcome(st: State, x: Item, e: Slotted)
    requires Multi(x) && Shapes(st.links) && e == Enrolled(st.links, x) && e.Slotted?
    requires LinkShape(e.links[e.at])
    ensures InstallItem(st, x)
         == match CreateLinks(st.fs, e.links[e.at], 0)
            case None => Beyond
            case Some(r) => Went(0, State(r.fs, e.links[e.at := r.li], st.failed || r.rc != 0))
  {
    hide Enrolled, CreateLinks;
  }

  /** A waiting name that hinders is refused when its turn comes. */
  lemma {:induction false} HinderedName(base: Fs, xs: seq<Item>, x: Item, fs: Fs, p: PathName)
    requires FsTracks(base, xs, fs) && Straight(base, xs, x) && x.path != [] && !Dirs(base, xs, x.path)
    requires Hinders(base, xs, x, p)
    ensures
      var created := WayTo(fs, x.path).Create(x.path, Regular(x.data));
      created.Valid() && x.path in created.names && !created.IsDir(x.path) && Refused(created, x.path, p)
  {
    hide Dirs, Fs.Grounded, NamesTrack;
    WayIsStraight(base, xs, x, fs);
    KindsOfWay(fs, x.path);
    var led := WayTo(fs, x.path);
    assert !IsLeading(x.path, x.path);
    KindsOfCreate(led, x.path, Regular(x.data));
    var created := led.Create(x.path, Regular(x.data));
    if p != x.path && p != [] && !DirsFor(base, xs, x, p) {
      var q :| IsLeading(q, p) && !DirsFor(base, xs, x, q);
      NotGrounded(created, p, q);
    } else if p == [] {
      NotGrounded(created, p, p);
    }
  }

  lemma {:induction false} NotGrounded(fs: Fs, p: PathName, q: PathName)
    requires p == [] || (IsLeading(q, p) && !fs.IsDir(q))
    ensures !fs.Grounded(p)
  {
    if p != [] {
      assert p[..|q|] == q;
    }
  }

  /** Data that cannot be installed, or waiting names that cannot be linked to it: the run does not go on. */
  lemma {:induction false} StepUnclear(base: Fs, xs: seq<Item>, x: Item, st: State)
    requires Tracks(base, xs, st) && SteadyStep(base, xs, x) && !Full(Group(xs, x.key), Stall(base, xs, x.key))
    requires Creates(xs, x) && !Clear(base, xs, x)
    ensures InstallItem(st, x) == Overrun <==> x.path == []
    ensures !GoesOn(InstallItem(st, x))
  {
    hide FindLink, Group, CreateLinks, Enrolled, LinksTrack, ExpectedLink, Waits, LinksAfter, RunsOn, Room, FirstData,
      Full, Stall, JoinSlot, Joined, Dirs, WayTo, Hinders, Harmless, GroundedBy, LinksAside, NamesTrack, Kinds, Led,
      Refused, Unlinkable;
    var g := Group(xs, x.key);
    StoredAfter(base, xs, x, st.links);
    JoinedWhileWaiting(g, x);
    WaitingPaths(g, x);
    if x.path != [] {
      WayIsStraight(base, xs, x, st.fs);
      KindsOfWay(st.fs, x.path);
      WayKeepsEnd(st.fs, x.path);
      var led, li := WayTo(st.fs, x.path), Marked(g, x);
      if !led.IsDir(x.path) {
        var k :| 0 <= k < |g| && Hinders(base, xs, x, g[k].path);
        HinderedName(base, xs, x, st.fs, g[k].path);
        CreateLinksClash(led.Create(x.path, Regular(x.data)), li, 0, g[k].path);
      }
      FirstEnds(st, x, Enrolled(st.links, x), li);
    }
  }

  lemma {:induction false} FirstEnds(st: State, x: Item, e: Slotted, li: HardLink)
    requires Multi(x) && HasData(x) && Shapes(st.links) && e == Enrolled(st.links, x) && e.Slotted? && x.path != []
    requires e.links[e.at].createdPath == -1 && st.fs.MakeLeading(x.path, 1) == Some(WayTo(st.fs, x.path))
    requires li == e.links[e.at].(createdPath := e.slot, linksLeft := e.links[e.at].linksLeft - 1) && LinkShape(li)
    requires
      var led := WayTo(st.fs, x.path);
      var r := CreateLinks(led.Create(x.path, Regular(x.data)), li, 0);
      led.IsDir(x.path) || (r.Some? ==> r.value.rc != 0)
    ensures !GoesOn(InstallItem(st, x)) && InstallItem(st, x) != Overrun
  {
    hide Enrolled, CreateLinks, WayTo;
  }

  /** One entry, exactly: when an array is overrun, when the run goes on, and what is then expected. */
  lemma {:induction false} StepExactly(base: Fs, xs: seq<Item>, x: Item, st: State)
    requires Tracks(base, xs, st) && Steady(base, xs + [x])
    ensures
      var r := InstallItem(st, x);
      && (r == Overrun <==> Overshoots(base, xs, x))
      && (GoesOn(r) <==> Accepts(base, xs, x))
      && (GoesOn(r) ==> r.st.fs == Entered(base, xs, st.fs, x) && Tracks(base, xs + [x], r.st))
  {
    hide InstallItem, RunsOn, Group, Full, LinksTrack, FsTracks, LinksAfter, Clear, SteadyStep, Steady, Entered,
      Stall, FirstData, Fails;
    SteadyAppend(base, xs, x);
    RunsOnAppend(base, xs, x);
    if !Multi(x) {
      StepAlone(base, xs, x, st);
      if Accepts(base, xs, x) {
        LinksTrackSame(base, xs, x, st.links);
        EnteredTracks(base, xs, x, st.fs);
      }
    } else {
      StepOfGroup(base, xs, x, st);
      if Accepts(base, xs, x) {
        LinksAfterTrack(base, xs, x, st.links);
        EnteredTracks(base, xs, x, st.fs);
        ShapesKept(base, xs + [x], LinksAfter(base, xs, x, st.links));
      }
    }
  }

  lemma {:induction false} ShapesKept(base: Fs, xs: seq<Item>, links: seq<HardLink>)
    requires LinksTrack(base, xs, links)
    ensures Shapes(links)
  {
  }

  lemma {:induction false} StepOfGroup(base: Fs, xs: seq<Item>, x: Item, st: State)
    requires Tracks(base, xs, st) && Steady(base, xs + [x]) && Multi(x)
    ensures
      var r := InstallItem(st, x);
      && (r == Overrun <==> Overshoots(base, xs, x))
      && (if Accepts(base, xs, x) then GoesAsExpected(base, xs, x, st, r) else !GoesOn(r))
  {
    hide InstallItem, RunsOn, Group, Full, LinksTrack, FsTracks, LinksAfter, Clear, SteadyStep, Steady, Entered,
      Stall, FirstData, Fails;
    SteadyAppend(base, xs, x);
    var g, r := Group(xs, x.key), Stall(base, xs, x.key);
    if Full(g, r) {
      FullOverruns(base, xs, x, st);
    } else if Late(xs, x) {
      if Fails(base, xs, x) {
        StepStuck(base, xs, x, st);
      } else {
        StepLinked(base, xs, x, st);
      }
    } else if !HasData(x) {
      StepDeferred(base, xs, x, st);
    } else if Clear(base, xs, x) {
      StepCreated(base, xs, x, st);
      ClearNamed(base, xs, x);
    } else {
      StepUnclear(base, xs, x, st);
    }
  }

  lemma {:induction false} ClearNamed(base: Fs, xs: seq<Item>, x: Item)
    requires Clear(base, xs, x)
    ensures x.path != []
  {
  }

  lemma {:induction false} FullOverruns(base: Fs, xs: seq<Item>, x: Item, st: State)
    requires Tracks(base, xs, st) && Multi(x) && Full(Group(xs, x.key), Stall(base, xs, x.key))
    ensures InstallItem(st, x) == Overrun
  {
    hide RunsOn, Group, FsTracks, Enrolled, LinksTrack, Stall, FirstData, CreateLinks;
    GroupFits(base, xs, x.key);
    EnrolledFits(base, xs, x, st.links);
  }

  // ---------- the whole run ----------

  /** The entry at `n` leads to a store outside an array, in a run that came so far. */
  ghost predicate OverrunsAt(base: Fs, xs: seq<Item>, n: nat)
    requires n < |xs|
  {
    RunsOn(base, xs[..n]) && Overshoots(base, xs[..n], xs[n])
  }

  ghost predicate Overruns(base: Fs, xs: seq<Item>) {
    exists n :: 0 <= n < |xs| && OverrunsAt(base, xs, n)
  }

  lemma {:induction false} OverrunsAppend(base: Fs, xs: seq<Item>, x: Item)
    ensures Overruns(base, xs + [x]) <==> Overruns(base, xs) || (RunsOn(base, xs) && Overshoots(base, xs, x))
  {
    hide RunsOn, Overshoots;
    var ys := xs + [x];
    assert ys[..|xs|] == xs && ys[|xs|] == x;
    forall n | 0 <= n < |xs|
      ensures ys[..n] == xs[..n] && ys[n] == xs[n]
    {
    }
    if Overruns(base, xs) {
      var n :| 0 <= n < |xs| && OverrunsAt(base, xs, n);
      assert OverrunsAt(base, ys, n);
    }
    if RunsOn(base, xs) && Overshoots(base, xs, x) {
      assert OverrunsAt(base, ys, |xs|);
    }
    if Overruns(base, ys) {
      var n :| 0 <= n < |ys| && OverrunsAt(base, ys, n);
      assert n < |xs| ==> OverrunsAt(base, xs, n);
    }
  }

  lemma {:induction false} NothingTracked(st: State)
    requires st.links == [] && st.fs.Valid()
    ensures Tracks(st.fs, [], st) && !Overruns(st.fs, [])
  {
    NothingTracks(st.fs);
  }

  /** Whole runs, as far as names stand for files. */
  lemma {:induction false} RunSteady(st: State, xs: seq<Item>)
    requires Steady(st.fs, xs) && st.links == [] && st.fs.Valid()
    ensures
      var r := InstallAll(st, xs);
      && (r == Overrun <==> Overruns(st.fs, xs))
      && (GoesOn(r) <==> RunsOn(st.fs, xs))
      && (GoesOn(r) ==> r.st.fs == Reference(st.fs, xs) && Tracks(st.fs, xs, r.st))
    decreases |xs|
  {
    hide InstallItem, RunsOn, Tracks, Overruns, Steady, Overshoots, Accepts, Entered;
    var base := st.fs;
    if xs == [] {
      NothingTracked(st);
    } else {
      var before, x := xs[..|xs| - 1], xs[|xs| - 1];
      assert before + [x] == xs;
      SteadyAppend(base, before, x);
      RunSteady(st, before);
      OverrunsAppend(base, before, x);
      RunsOnAppend(base, before, x);
      if RunsOn(base, before) {
        StepExactly(base, before, x, InstallAll(st, before).st);
      }
    }
  }

  /**
   * Whole runs, exactly: an array is overrun if and only if some entry finds its group full or has an empty name, and
   * the run goes on to its end if and only if all entries are accepted. Then the list of groups is as expected, and
   * the file system is the reference.
   */
  lemma {:induction false} RunExactly(st: State, xs: seq<Item>)
    requires Tame(st.fs, xs) && st.links == [] && st.fs.Valid()
    ensures
      var r := InstallAll(st, xs);
      && (r == Overrun <==> Overruns(st.fs, xs))
      && (GoesOn(r) <==> RunsOn(st.fs, xs))
      && (GoesOn(r) ==> r.st.fs == Reference(st.fs, xs) && Tracks(st.fs, xs, r.st))
  {
    hide InstallAll, RunsOn, Tracks, Overruns, Reference, SpelledOnce, Steady;
    RunSteady(st, xs);
  }
}
