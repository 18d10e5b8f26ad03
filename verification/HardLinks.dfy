/** The hard-link groups of the archive installer: deferred names, the created file and the links left. */
module HardLinks {
  import opened Words
  import opened Cpio
  import opened FileTree

  // ---------- the groups ----------

  type Key = (int, int, int)

  datatype HardLink = HardLink(key: Key, nlink: nat, linksLeft: int, createdPath: int, files: seq<Option<PathName>>)

  datatype Kind = RegularFile | DirectoryFile | SymlinkFile | FifoFile | DeviceFile(rdev: (int, int)) | UnknownFile

  /** One entry to be installed, after the mapping has been applied; `missing` bytes of it are not in the stream. */
  datatype Item = Item(path: PathName, kind: Kind, nlink: int, key: Key, data: seq<byte>, missing: nat)

  predicate Multi(x: Item) {
    x.kind.RegularFile? && x.nlink > 1
  }

  /** Its header gives a size other than zero. */
  predicate HasData(x: Item) {
    x.data != [] || x.missing > 0
  }

  /** `failed` tells whether the name of a failed file is on record; only the first one is kept, and unlinked. */
  datatype State = State(fs: Fs, links: seq<HardLink>, failed: bool)

  /** The search through the list of groups. */
  function FindLink(links: seq<HardLink>, key: Key): (i: nat)
    ensures i <= |links| && (i < |links| ==> links[i].key == key)
    ensures forall k :: 0 <= k < i ==> links[k].key != key
  {
    if links == [] || links[0].key == key then 0 else 1 + FindLink(links[1..], key)
  }

  /** The first unused slot at or behind `i`. */
  function FreeSlot(files: seq<Option<PathName>>, i: nat): (s: nat)
    requires i <= |files|
    ensures i <= s <= |files| && (s < |files| ==> files[s].None?)
    ensures forall k :: i <= k < s ==> files[k].Some?
    decreases |files| - i
  {
    if i == |files| || files[i].None? then i else FreeSlot(files, i + 1)
  }

  datatype Linking = Linking(rc: int, fs: Fs, li: HardLink)

  const CPIOERR_INTERNAL := 20
  const CPIOERR_UNLINK_FAILED := 9 - 0x8000_0000
  const CPIOERR_SYMLINK_FAILED := 11 - 0x8000_0000
  const CPIOERR_LINK_FAILED := 16 - 0x8000_0000

  predicate LinkShape(li: HardLink) {
    |li.files| == li.nlink && 0 <= li.createdPath < li.nlink && li.files[li.createdPath].Some?
  }

  /**
   * createLinks from slot `i` on: every pending name is unlinked, linked to the created one and forgotten. None where
   * the way to a name goes through a symbolic link.
   */
  function CreateLinks(fs: Fs, li: HardLink, i: nat): (r: Option<Linking>)
    requires LinkShape(li) && i <= li.nlink
    ensures r.Some? ==> LinkShape(r.value.li)
    decreases li.nlink - i
  {
    if i == li.nlink then Some(Linking(0, fs, li))
    else if i == li.createdPath || li.files[i].None? then CreateLinks(fs, li, i + 1)
    else
      var c, p := li.files[li.createdPath].value, li.files[i].value;
      var free := fs.Unlink(p);
      if fs.Crosses(p) then None
      else if fs.IsDir(p) then Some(Linking(CPIOERR_UNLINK_FAILED, fs, li))
      else if !free.Linkable(c, p) then Some(Linking(CPIOERR_LINK_FAILED, free, li))
      else CreateLinks(free.Link(c, p), li.(files := li.files[i := None], linksLeft := li.linksLeft - 1), i + 1)
  }

  /**
   * What one entry does. Overrun marks a store outside an array, which C does not define; Beyond a symbolic link where
   * a directory is wanted, behind which names are no longer what they seem; Astray an entry whose data was not read.
   */
  datatype Step = Overrun | Beyond | Astray(st: State) | Went(rc: int, st: State)

  /** The group of a multi-link entry with its name stored, and the slot it went to. */
  datatype Slotted = NoSlot | Slotted(links: seq<HardLink>, at: nat, slot: nat)

  ghost predicate Shapes(links: seq<HardLink>) {
    forall k :: 0 <= k < |links| ==>
      && |links[k].files| == links[k].nlink
      && (links[k].createdPath == -1 || LinkShape(links[k]))
  }

  /** A group with nothing stored yet. */
  function NewLink(x: Item): (li: HardLink)
    requires Multi(x)
    ensures |li.files| == x.nlink && forall k :: 0 <= k < x.nlink ==> li.files[k].None?
  {
    HardLink(x.key, x.nlink, x.nlink, -1, seq(x.nlink, k => None))
  }

  function Enrolled(links: seq<HardLink>, x: Item): (r: Slotted)
    requires Multi(x) && Shapes(links)
    ensures r.Slotted? ==> r.at < |r.links| && r.slot < r.links[r.at].nlink && Shapes(r.links)
    ensures r.Slotted? ==> r.links[r.at].files[r.slot] == Some(x.path)
  {
    var i := FindLink(links, x.key);
    var links' := if i < |links| then links else [NewLink(x)] + links;
    var at := if i < |links| then i else 0;
    var slot := FreeSlot(links'[at].files, 0);
    if slot >= links'[at].nlink then NoSlot
    else Slotted(links'[at := links'[at].(files := links'[at].files[slot := Some(x.path)])], at, slot)
  }

  /** What an error leaves behind: the first failing file is put on record and unlinked, unless it is a directory. */
  function Abandoned(st: State, path: PathName): (st': State) {
    if st.failed then st else State(if st.fs.IsDir(path) then st.fs else st.fs.Unlink(path), st.links, true)
  }

  /** A symbolic link of 2^64 - 1 bytes, whose size wraps around in the test of its length. */
  predicate WrapsSize(x: Item) {
    x.kind.SymlinkFile? && |x.data| + x.missing + 1 == TWO_TO_THE_64
  }

  /** The target of a symbolic link ends at the first terminator. */
  function Target(x: Item): (t: seq<byte>) {
    CutAtNul(x.data)
  }

  /** An entry that does not read its data. */
  function Unread(st: State, x: Item): (r: Step) {
    if HasData(x) then Astray(st) else Went(0, st)
  }

  /** The node is there already, takes the place of what is, or meets a directory. */
  function Special(st: State, x: Item, node: Node): (r: Step)
    requires !node.Directory?
  {
    if st.fs.IsDir(x.path) then Went(CPIOERR_UNLINK_FAILED, Abandoned(st, x.path))
    else Unread(st.(fs := st.fs.Place(x.path, node)), x)
  }

  function RegularAlone(st: State, x: Item): (r: Step)
  {
    var st' := st.(fs := st.fs.Create(x.path, Regular(x.data)));
    if st.fs.IsDir(x.path) then Went(CPIOERR_UNLINK_FAILED, Abandoned(st, x.path))
    else if x.missing > 0 then Went(CPIOERR_READ_FAILED, Abandoned(st', x.path))
    else Went(0, st')
  }

  function SymlinkAlone(st: State, x: Item): (r: Step)
  {
    var t := Target(x);
    if |x.data| + x.missing + 1 == TWO_TO_THE_64 then Overrun
    else if |x.data| + x.missing + 1 > 2048 then Went(CPIOERR_INTERNAL, Abandoned(st, x.path))
    else if x.missing > 0 then Went(CPIOERR_READ_FAILED, Abandoned(st, x.path))
    else if st.fs.IsDir(x.path) then Went(CPIOERR_UNLINK_FAILED, Abandoned(st, x.path))
    else if t == [] then Went(CPIOERR_SYMLINK_FAILED, Abandoned(st.(fs := st.fs.Unlink(x.path)), x.path))
    else Went(0, st.(fs := st.fs.Place(x.path, Symlink(t))))
  }

  /** An entry outside the groups, when the directories on its way are there. */
  function InstallAlone(st: State, x: Item): (r: Step)
  {
    match x.kind
    case RegularFile => RegularAlone(st, x)
    case DirectoryFile =>
      (match st.fs.MakeDir(x.path)
       case None => Beyond
       case Some(fs) => Unread(st.(fs := fs), x))
    case SymlinkFile => SymlinkAlone(st, x)
    case FifoFile => Special(st, x, Fifo)
    case DeviceFile(rdev) => Special(st, x, Device(rdev))
    case UnknownFile => Went(CPIOERR_INTERNAL, Abandoned(st, x.path))
  }

  /**
   * The entry that brings the data of its group: the file is made, unless a directory stands there, and names are
   * linked.
   */
  function InstallFirst(st: State, x: Item, at: nat, slot: nat): (r: Step)
    requires Shapes(st.links) && at < |st.links| && slot < st.links[at].nlink && st.links[at].files[slot].Some?
    ensures r.Went? || r.Astray? ==> Shapes(r.st.links)
  {
    if x.path == [] then Overrun
    else
      match st.fs.MakeLeading(x.path, 1)
      case None => Beyond
      case Some(fs) =>
        var blocked := fs.IsDir(x.path);
        var created := if blocked then fs else fs.Create(x.path, Regular(x.data));
        var li := st.links[at].(createdPath := slot, linksLeft := st.links[at].linksLeft - 1);
        match CreateLinks(created, li, 0)
        case None => Beyond
        case Some(r) =>
          var st' := State(r.fs, st.links[at := r.li], st.failed || r.rc != 0);
          if blocked && r.rc == 0 then Astray(st') else Went(r.rc, st')
  }

  /** One entry of the install loop. */
  function InstallItem(st: State, x: Item): (r: Step)
    requires Shapes(st.links)
    ensures r.Went? || r.Astray? ==> Shapes(r.st.links)
  {
    if Multi(x) then
      match Enrolled(st.links, x)
      case NoSlot => Overrun
      case Slotted(links, at, slot) =>
        if links[at].createdPath != -1 then
          match CreateLinks(st.fs, links[at], 0)
          case None => Beyond
          case Some(r) => Went(0, State(r.fs, links[at := r.li], st.failed || r.rc != 0))
        else if !HasData(x) then Went(0, st.(links := links))
        else InstallFirst(st.(links := links), x, at, slot)
    else if x.path == [] then Overrun
    else
      match st.fs.MakeLeading(x.path, 1)
      case None => Beyond
      case Some(fs) => InstallAlone(st.(fs := fs), x)
  }

  predicate GoesOn(r: Step) {
    r.Went? && r.rc == 0
  }

  /** The install loop over a list of entries, as long as it goes on. */
  function InstallAll(st: State, xs: seq<Item>): (r: Step)
    requires Shapes(st.links)
    ensures r.Went? || r.Astray? ==> Shapes(r.st.links)
  {
    if xs == [] then Went(0, st)
    else
      var r := InstallAll(st, xs[..|xs| - 1]);
      if GoesOn(r) then InstallItem(r.st, xs[|xs| - 1]) else r
  }

  /** The pass over the groups after the trailer. */
  function ClosingPass(fs: Fs, links: seq<HardLink>): (r: Option<(int, Fs)>)
    requires Shapes(links)
    decreases |links|
  {
    if links == [] then Some((0, fs))
    else if links[0].linksLeft == 0 then ClosingPass(fs, links[1..])
    else if links[0].createdPath == -1 then Some((CPIOERR_INTERNAL, fs))
    else
      match CreateLinks(fs, links[0], 0)
      case None => None
      case Some(r) => if r.rc != 0 then Some((r.rc, r.fs)) else ClosingPass(r.fs, links[1..])
  }

  /** How the installation ends that the loop has brought to the trailer. */
  function Closed(st: State): (r: Step)
    requires Shapes(st.links)
  {
    match ClosingPass(st.fs, st.links)
    case None => Beyond
    case Some(r) => Went(r.0, st.(fs := r.1))
  }

  /** A whole installation: Went holds its return value and the file system it leaves. */
  function Install(st: State, xs: seq<Item>): (r: Step)
    requires st.links == []
  {
    var r := InstallAll(st, xs);
    if GoesOn(r) then Closed(r.st) else r
  }

  /** Once a run does not go on, later entries are not looked at. */
  lemma {:induction false} EndStays(st: State, xs: seq<Item>, ys: seq<Item>)
    requires Shapes(st.links) && xs <= ys && !GoesOn(InstallAll(st, xs))
    ensures InstallAll(st, ys) == InstallAll(st, xs)
    decreases |ys|
  {
    hide InstallItem;
    if |xs| == |ys| {
      assert xs == ys;
    } else {
      EndStays(st, xs, ys[..|ys| - 1]);
    }
  }

  // ---------- linking the pending names ----------

  predicate IsPending(li: HardLink, k: nat)
    requires k < |li.files|
  {
    k != li.createdPath && li.files[k].Some?
  }

  function PendingCount(li: HardLink, i: nat): (n: nat)
    requires i <= |li.files|
    decreases |li.files| - i
  {
    if i == |li.files| then 0 else (if IsPending(li, i) then 1 else 0) + PendingCount(li, i + 1)
  }

  /** `path` waits in a slot at or behind `i`. */
  ghost predicate Waits(li: HardLink, i: nat, path: PathName)
  {
    exists k :: i <= k < |li.files| && IsPending(li, k) && li.files[k].value == path
  }

  ghost predicate Cleared(li: HardLink, i: nat, files: seq<Option<PathName>>)
  {
    && |files| == |li.files|
    && forall k :: 0 <= k < |files| ==> files[k] == if i <= k && k != li.createdPath then None else li.files[k]
  }

  /** All waiting names come to share the node of the created one; nothing else changes. */
  ghost predicate Relinked(fs: Fs, fs': Fs, li: HardLink, i: nat, created: PathName)
    requires created in fs.names
  {
    && fs'.nodes == fs.nodes
    && forall p :: (p in fs'.names <==> p in fs.names || Waits(li, i, p))
                && (p in fs'.names ==> fs'.names[p] == if Waits(li, i, p) then fs.names[created] else fs.names[p])
  }

  /** A name that can be linked: no directory, and the directories on its way are there. */
  ghost predicate Ready(fs: Fs, p: PathName) {
    !fs.IsDir(p) && fs.Grounded(p)
  }

  ghost predicate AllReady(fs: Fs, li: HardLink, i: nat, c: PathName) {
    !Waits(li, i, c) && forall p :: Waits(li, i, p) ==> Ready(fs, p)
  }

  lemma {:induction false} AllReadySkip(fs: Fs, li: HardLink, i: nat, c: PathName)
    requires i < |li.files| && !IsPending(li, i) && AllReady(fs, li, i, c)
    ensures AllReady(fs, li, i + 1, c)
  {
    hide Ready;
    SkipsSlot(li, i);
  }

  lemma {:induction false} AllReadyOne(fs: Fs, li: HardLink, li1: HardLink, i: nat, c: PathName)
    requires i < |li.files| && IsPending(li, i) && AllReady(fs, li, i, c) && fs.Valid() && c in fs.names && !fs.IsDir(c)
    requires li1 == li.(files := li.files[i := None], linksLeft := li.linksLeft - 1)
    ensures li.files[i].value != c && Ready(fs, li.files[i].value)
    ensures AllReady(fs.Link(c, li.files[i].value), li1, i + 1, c)
  {
    hide Fs.Grounded;
    var p0 := li.files[i].value;
    assert Waits(li, i, p0);
    WaitsAfter(li, li1, i);
    forall p | Waits(li1, i + 1, p)
      ensures Ready(fs.Link(c, p0), p)
    {
      assert Waits(li, i, p);
      ReadyStays(fs, c, p0, p);
    }
  }

  /** With the created file there and every waiting name ready for it, linking succeeds. */
  lemma {:induction false} CreateLinksWorks(fs: Fs, li: HardLink, i: nat)
    requires LinkShape(li) && i <= li.nlink && fs.Valid()
    requires
      var c := li.files[li.createdPath].value;
      c in fs.names && !fs.IsDir(c) && AllReady(fs, li, i, c)
    ensures CreateLinks(fs, li, i).Some?
    ensures
      var c, r := li.files[li.createdPath].value, CreateLinks(fs, li, i).value;
      && r.rc == 0 && Relinked(fs, r.fs, li, i, c)
      && r.li == li.(files := r.li.files, linksLeft := li.linksLeft - PendingCount(li, i))
      && Cleared(li, i, r.li.files)
    decreases li.nlink - i
  {
    hide Relinked, Waits, CreateLinks, Ready, AllReady;
    var c := li.files[li.createdPath].value;
    if i == li.nlink {
      LinksEnd(fs, li);
      NothingRelinked(fs, li, i, c);
    } else if !IsPending(li, i) {
      LinksSkip(fs, li, i);
      AllReadySkip(fs, li, i, c);
      CreateLinksWorks(fs, li, i + 1);
      RelinkedSkip(fs, CreateLinks(fs, li, i + 1).value.fs, li, i, c);
    } else {
      var p0, li1 := li.files[i].value, li.(files := li.files[i := None], linksLeft := li.linksLeft - 1);
      WaitsAfter(li, li1, i);
      PendingAfter(li, li1, i + 1);
      var fs1 := fs.Link(c, p0);
      AllReadyOne(fs, li, li1, i, c);
      LinksOne(fs, li, li1, i, c);
      CreateLinksWorks(fs1, li1, i + 1);
      RelinkedStep(fs, fs1, CreateLinks(fs1, li1, i + 1).value.fs, li, li1, i, c);
    }
  }

  lemma {:induction false} LinksEnd(fs: Fs, li: HardLink)
    requires LinkShape(li)
    ensures CreateLinks(fs, li, li.nlink) == Some(Linking(0, fs, li))
  {
  }

  lemma {:induction false} LinksSkip(fs: Fs, li: HardLink, i: nat)
    requires LinkShape(li) && i < li.nlink && !IsPending(li, i)
    ensures CreateLinks(fs, li, i) == CreateLinks(fs, li, i + 1)
  {
  }

  lemma {:induction false} LinksOne(fs: Fs, li: HardLink, li1: HardLink, i: nat, c: PathName)
    requires LinkShape(li) && i < li.nlink && IsPending(li, i) && li.files[li.createdPath] == Some(c) && fs.Valid()
    requires c in fs.names && !fs.IsDir(c) && li.files[i].value != c && Ready(fs, li.files[i].value)
    requires li1 == li.(files := li.files[i := None], linksLeft := li.linksLeft - 1)
    ensures fs.Link(c, li.files[i].value).Valid() && !fs.Link(c, li.files[i].value).IsDir(c)
    ensures CreateLinks(fs, li, i) == CreateLinks(fs.Link(c, li.files[i].value), li1, i + 1)
  {
    hide Fs.Grounded, Fs.Crosses;
    var p := li.files[i].value;
    var free := fs.Unlink(p);
    GroundedUnlinked(fs, p);
    GroundedStraight(fs, p);
    assert free.Link(c, p).names == fs.Link(c, p).names;
  }

  /** The way to a name does not depend on the name itself. */
  lemma {:induction false} GroundedUnlinked(fs: Fs, p: PathName)
    ensures fs.Unlink(p).Grounded(p) <==> fs.Grounded(p)
  {
    forall i | 1 <= i < |p|
      ensures fs.Unlink(p).IsDir(p[..i]) <==> fs.IsDir(p[..i])
    {
      assert |p[..i]| != |p|;
    }
  }

  lemma {:induction false} GroundedStraight(fs: Fs, p: PathName)
    requires fs.Grounded(p)
    ensures !fs.Crosses(p)
  {
  }

  /** Linking one name that was no directory to a node that is none keeps the others ready. */
  lemma {:induction false} ReadyStays(fs: Fs, c: PathName, p0: PathName, p: PathName)
    requires fs.Valid() && c in fs.names && !fs.IsDir(c) && !fs.IsDir(p0) && Ready(fs, p)
    ensures Ready(fs.Link(c, p0), p)
  {
    forall q
      ensures fs.Link(c, p0).IsDir(q) <==> fs.IsDir(q)
    {
      LinkedDirs(fs, c, p0, q);
    }
  }

  lemma {:induction false} LinkedDirs(fs: Fs, c: PathName, p0: PathName, q: PathName)
    requires fs.Valid() && c in fs.names && !fs.IsDir(c) && !fs.IsDir(p0)
    ensures fs.Link(c, p0).IsDir(q) <==> fs.IsDir(q)
  {
  }

  lemma {:induction false} NothingRelinked(fs: Fs, li: HardLink, i: nat, c: PathName)
    requires c in fs.names && i >= |li.files|
    ensures Relinked(fs, fs, li, i, c)
  {
  }

  lemma {:induction false} SkipsSlot(li: HardLink, i: nat)
    requires i < |li.files| && !IsPending(li, i)
    ensures forall p :: Waits(li, i, p) <==> Waits(li, i + 1, p)
  {
  }

  lemma {:induction false} RelinkedSkip(fs: Fs, fs': Fs, li: HardLink, i: nat, c: PathName)
    requires c in fs.names && i < |li.files| && !IsPending(li, i) && Relinked(fs, fs', li, i + 1, c)
    ensures Relinked(fs, fs', li, i, c)
  {
    SkipsSlot(li, i);
  }

  lemma {:induction false} RelinkedStep(fs: Fs, fs1: Fs, fs': Fs, li: HardLink, li1: HardLink, i: nat, c: PathName)
    requires c in fs.names && i < |li.files| && IsPending(li, i) && li.files[i].value != c
    requires fs1 == fs.Link(c, li.files[i].value)
    requires forall p :: Waits(li, i, p) <==> p == li.files[i].value || Waits(li1, i + 1, p)
    requires Relinked(fs1, fs', li1, i + 1, c)
    ensures Relinked(fs, fs', li, i, c)
  {
    hide Waits;
  }

  lemma {:induction false} WaitsAfter(li: HardLink, li1: HardLink, i: nat)
    requires i < |li.files| && IsPending(li, i)
      && li1 == li.(files := li.files[i := None], linksLeft := li.linksLeft - 1)
    ensures forall p :: Waits(li, i, p) <==> p == li.files[i].value || Waits(li1, i + 1, p)
  {
    forall p
      ensures Waits(li, i, p) <==> p == li.files[i].value || Waits(li1, i + 1, p)
    {
      if Waits(li, i, p) && p != li.files[i].value {
        var k :| i <= k < |li.files| && IsPending(li, k) && li.files[k].value == p;
        assert IsPending(li1, k);
      }
      if Waits(li1, i + 1, p) {
        var k :| i + 1 <= k < |li1.files| && IsPending(li1, k) && li1.files[k].value == p;
        assert IsPending(li, k);
      }
    }
  }

  lemma {:induction false} PendingAfter(li: HardLink, li1: HardLink, j: nat)
    requires |li1.files| == |li.files| && j <= |li.files| && li1.createdPath == li.createdPath
    requires forall k :: j <= k < |li.files| ==> li1.files[k] == li.files[k]
    ensures PendingCount(li1, j) == PendingCount(li, j)
    decreases |li.files| - j
  {
    if j < |li.files| {
      PendingAfter(li, li1, j + 1);
    }
  }

  lemma {:induction false} PendingRun(li: HardLink, m: nat, i: nat)
    requires m < |li.files| && li.createdPath == m && i <= |li.files|
    requires (forall k :: 0 <= k < m ==> li.files[k].Some?) && (forall k :: m < k < |li.files| ==> li.files[k].None?)
    ensures PendingCount(li, i) == if i <= m then m - i else 0
    decreases |li.files| - i
  {
    if i < |li.files| {
      PendingRun(li, m, i + 1);
    }
  }

  lemma {:induction false} PendingSingle(li: HardLink, s: nat, i: nat)
    requires s < |li.files| && i <= |li.files| && forall k :: 0 <= k < |li.files| ==> (IsPending(li, k) <==> k == s)
    ensures PendingCount(li, i) == if i <= s then 1 else 0
    decreases |li.files| - i
  {
    if i < |li.files| {
      PendingSingle(li, s, i + 1);
    }
  }

  /** The created name cannot be linked to: it is gone, or a directory. */
  predicate Unlinkable(fs: Fs, c: PathName) {
    c !in fs.names || fs.IsDir(c)
  }

  /**
   * Linking ends at the first waiting name if that is a directory or the created name, or there is nothing to link
   * to.
   */
  lemma {:induction false} CreateLinksFails(fs: Fs, li: HardLink, i: nat, s: nat)
    requires LinkShape(li) && i <= s < li.nlink && IsPending(li, s) && forall k :: i <= k < s ==> !IsPending(li, k)
    requires
      var c, p := li.files[li.createdPath].value, li.files[s].value;
      !fs.Crosses(p) && (fs.IsDir(p) || p == c || Unlinkable(fs, c))
    ensures
      var p := li.files[s].value;
      CreateLinks(fs, li, i)
      == Some(if fs.IsDir(p) then Linking(CPIOERR_UNLINK_FAILED, fs, li)
              else Linking(CPIOERR_LINK_FAILED, fs.Unlink(p), li))
    decreases s - i
  {
    if i < s {
      assert !IsPending(li, i);
      CreateLinksFails(fs, li, i + 1, s);
    } else {
      hide Fs.Grounded, Fs.Crosses;
    }
  }

  /** A waiting name that cannot be linked to `c`. */
  ghost predicate Refused(fs: Fs, c: PathName, p: PathName) {
    p == c || !Ready(fs, p)
  }

  /** With such a name among the waiting ones, linking fails sooner or later. */
  lemma {:induction false} CreateLinksClash(fs: Fs, li: HardLink, i: nat, p: PathName)
    requires LinkShape(li) && i <= li.nlink && fs.Valid() && Waits(li, i, p)
    requires var c := li.files[li.createdPath].value; Refused(fs, c, p) || Unlinkable(fs, c)
    ensures CreateLinks(fs, li, i).Some? ==> CreateLinks(fs, li, i).value.rc != 0
    decreases li.nlink - i
  {
    hide Waits, Fs.Grounded, Fs.Crosses;
    var c := li.files[li.createdPath].value;
    if i == li.nlink {
      NothingWaits(li, i, p);
    } else if !IsPending(li, i) {
      SkipsSlot(li, i);
      CreateLinksClash(fs, li, i + 1, p);
    } else {
      var p0 := li.files[i].value;
      var free := fs.Unlink(p0);
      GroundedUnlinked(fs, p0);
      if !fs.Crosses(p0) && !fs.IsDir(p0) && free.Linkable(c, p0) {
        var li1 := li.(files := li.files[i := None], linksLeft := li.linksLeft - 1);
        WaitsAfter(li, li1, i);
        LinkedStep(fs, c, p0);
        RefusedStays(fs, c, p0, p);
        CreateLinksClash(free.Link(c, p0), li1, i + 1, p);
      }
    }
  }

  lemma {:induction false} LinkedStep(fs: Fs, c: PathName, p0: PathName)
    requires fs.Valid() && !fs.IsDir(p0) && fs.Unlink(p0).Linkable(c, p0)
    ensures c in fs.names && c != p0 && !fs.IsDir(c)
    ensures fs.Unlink(p0).Link(c, p0) == fs.Link(c, p0) && fs.Link(c, p0).Valid()
  {
    hide Fs.Grounded;
    assert fs.Unlink(p0).Link(c, p0).names == fs.Link(c, p0).names;
  }

  lemma {:induction false} RefusedStays(fs: Fs, c: PathName, p0: PathName, p: PathName)
    requires fs.Valid() && c in fs.names && !fs.IsDir(c) && !fs.IsDir(p0) && Refused(fs, c, p)
    ensures Refused(fs.Link(c, p0), c, p)
  {
    forall q
      ensures fs.Link(c, p0).IsDir(q) <==> fs.IsDir(q)
    {
      LinkedDirs(fs, c, p0, q);
    }
  }

  lemma {:induction false} NothingWaits(li: HardLink, i: nat, p: PathName)
    requires i >= |li.files|
    ensures !Waits(li, i, p)
  {
  }
}
