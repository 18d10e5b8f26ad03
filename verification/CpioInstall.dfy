/** myCpioInstallArchive: the install loop over the stream of an archive. */
module CpioInstall {
  import opened Words
  import opened Cpio
  import opened FileTree
  import opened HardLinks
  import opened LinkRuns
  import opened LinkOutcomes
  import LinkSlots
  import CpioFilter

  // ---------- from headers to entries ----------

  /** The parts of a file mapping that change what is installed. */
  datatype Mapping = Mapping(fsPath: Option<PathName>, finalMode: Option<int>)

  type Mappings = Option<map<PathName, Mapping>>

  function KindOf(mode: int, rdev: (int, int)): (k: Kind)
  {
    var t := mode % 0x10000 / 0x1000;
    if t == 8 then RegularFile
    else if t == 4 then DirectoryFile
    else if t == 10 then SymlinkFile
    else if t == 1 || t == 12 then FifoFile
    else if t == 2 || t == 6 then DeviceFile(rdev)
    else UnknownFile
  }

  /** Header and mapping decide everything about an entry but its data. */
  datatype Plan = Plan(path: PathName, kind: Kind, nlink: int, key: Key, size: nat)

  function PlanFor(raw: RawHeader, name: seq<byte>, mappings: Mappings): (r: Option<Plan>)
    requires HeaderReadable(raw)
    ensures r.Some? ==> r.value.size == DataSize(raw)
  {
    var path := Path(name);
    if mappings.Some? && path !in mappings.value then None
    else
      var field := (k: nat) requires k < 12 => NumericField(raw, k).value;
      var m := if mappings.Some? then mappings.value[path] else Mapping(None, None);
      var mode := if m.finalMode.Some? then m.finalMode.value else field(1);
      Some(Plan(if m.fsPath.Some? then m.fsPath.value else path, KindOf(mode, (field(9), field(10))), field(4),
                (field(0), field(7), field(8)), DataSize(raw)))
  }

  function ItemOf(p: Plan, data: seq<byte>): (x: Item) {
    Item(p.path, p.kind, p.nlink, p.key, data, 0)
  }

  /** The entry whose data starts at `pos`, with as much of it as the stream still holds. */
  function ItemAt(p: Plan, data: seq<byte>, pos: nat): (x: Item)
    requires pos <= |data|
    ensures pos + p.size <= |data| ==> x == ItemOf(p, data[pos..pos + p.size])
  {
    var end := Capped(pos + p.size, data);
    Item(p.path, p.kind, p.nlink, p.key, data[pos..end], pos + p.size - end)
  }

  /** The entries that are installed, in order. */
  function ItemsOf(es: seq<Entry>, mappings: Mappings): (xs: seq<Item>)
    requires forall i :: 0 <= i < |es| ==> HeaderReadable(es[i].raw)
  {
    if es == [] then []
    else
      var e := es[|es| - 1];
      var xs := ItemsOf(es[..|es| - 1], mappings);
      match PlanFor(e.raw, e.name, mappings)
      case None => xs
      case Some(p) => xs + [ItemOf(p, e.data)]
  }

  /** The file types of stat(2): the high digit of the mode, whatever the permissions and the bits above. */
  lemma {:induction false} KindExactly(high: int, permissions: nat, rdev: (int, int))
    requires permissions < 0x1000
    ensures
      var m := 0x1_0000 * high + permissions;
      && KindOf(m + 0x8000, rdev) == RegularFile && KindOf(m + 0x4000, rdev) == DirectoryFile
      && KindOf(m + 0xa000, rdev) == SymlinkFile
      && KindOf(m + 0x1000, rdev) == FifoFile && KindOf(m + 0xc000, rdev) == FifoFile
      && KindOf(m + 0x2000, rdev) == DeviceFile(rdev) && KindOf(m + 0x6000, rdev) == DeviceFile(rdev)
    ensures forall t :: t in {0, 3, 5, 7, 9, 11, 13, 14, 15} ==>
      KindOf(0x1_0000 * high + 0x1000 * t + permissions, rdev) == UnknownFile
  {
    hide KindOf;
    TypeDigit(high, 8, permissions, rdev);
    TypeDigit(high, 4, permissions, rdev);
    TypeDigit(high, 10, permissions, rdev);
    TypeDigit(high, 1, permissions, rdev);
    TypeDigit(high, 12, permissions, rdev);
    TypeDigit(high, 2, permissions, rdev);
    TypeDigit(high, 6, permissions, rdev);
    forall t | t in {0, 3, 5, 7, 9, 11, 13, 14, 15}
      ensures KindOf(0x1_0000 * high + 0x1000 * t + permissions, rdev) == UnknownFile
    {
      TypeDigit(high, t, permissions, rdev);
    }
  }

  lemma {:induction false} TypeDigit(high: int, t: nat, permissions: nat, rdev: (int, int))
    requires t < 16 && permissions < 0x1000
    ensures KindOf(0x1_0000 * high + 0x1000 * t + permissions, rdev)
         == match t
            case 8 => RegularFile
            case 4 => DirectoryFile
            case 10 => SymlinkFile
            case 1 => FifoFile
            case 12 => FifoFile
            case 2 => DeviceFile(rdev)
            case 6 => DeviceFile(rdev)
            case _ => UnknownFile
  {
    var low := 0x1000 * t + permissions;
    assert (0x1_0000 * high + low) % 0x1_0000 == low;
    assert low / 0x1000 == t;
  }

  /** What is taken from a header: inode, mode, links, size, the two device numbers and those of a special file. */
  lemma {:induction false} PlanReadBack(fields: seq<nat>, name: seq<byte>)
    requires |fields| == 12 && forall k :: 0 <= k < 12 ==> fields[k] < 0x8000_0000
    ensures HeaderReadable(HeaderOf(fields))
    ensures PlanFor(HeaderOf(fields), name, None)
         == Some(Plan(Path(name), KindOf(fields[1], (fields[9], fields[10])), fields[4],
                      (fields[0], fields[7], fields[8]), fields[6]))
  {
    hide NumericField, HeaderOf, KindOf, CutAtNul;
    HeaderReadBack(fields);
  }

  /** A mapping leaves out the entries it does not name, and may give the others another path and another mode. */
  lemma {:induction false} PlanMapped(raw: RawHeader, name: seq<byte>, m: map<PathName, Mapping>)
    requires HeaderReadable(raw)
    ensures PlanFor(raw, name, None).Some?
    ensures PlanFor(raw, name, Some(m)).None? <==> Path(name) !in m
    ensures Path(name) in m ==>
      var p, q, to := PlanFor(raw, name, None).value, PlanFor(raw, name, Some(m)).value, m[Path(name)];
      && q.path == (if to.fsPath.Some? then to.fsPath.value else p.path)
      && (to.finalMode.None? ==> q.kind == p.kind)
      && (to.finalMode.Some? ==>
            q.kind == KindOf(to.finalMode.value, (NumericField(raw, 9).value, NumericField(raw, 10).value)))
      && q.nlink == p.nlink && q.key == p.key && q.size == p.size
  {
    hide NumericField, CutAtNul, DataSize;
  }

  /** Only regular files and symbolic links read the data that follows their header. */
  predicate ReadsData(kind: Kind) {
    kind.RegularFile? || kind.SymlinkFile?
  }

  /** The event, the state and the place in the stream are those of a step over an entry with `size` bytes of data. */
  ghost predicate Matches(r: Step, e: Event, st: State, size: nat, data: seq<byte>, pos: nat, pos': nat) {
    match r
    case Overrun => e == Overran
    case Beyond => e == WentBeyond
    case Astray(s) => e == Strayed && st == s && pos' == pos
    case Went(rc, s) => e == Returned(rc) && st == s && (rc == 0 ==> pos' == Capped(pos + size, data))
  }

  // ---------- the state of the installer ----------

  /**
   * How a call ends: with an undefined store, behind a symbolic link, with data left unread, or with a return value.
   */
  datatype Event = Overran | WentBeyond | Strayed | Returned(rc: int)

  class Installer {
    var fs: Fs
    var links: seq<HardLink>
    var failed: bool

    ghost function St(): (s: State)
      reads this
    {
      State(fs, links, failed)
    }

    constructor (fs: Fs)
      ensures this.fs == fs && links == [] && !failed
    {
      this.fs, links, failed := fs, [], false;
    }

    /** The loop over the list of groups. */
    method Search(key: Key) returns (i: nat)
      ensures i == FindLink(links, key)
    {
      i := 0;
      while i < |links| && links[i].key != key
        invariant 0 <= i <= |links|
        invariant forall k :: 0 <= k < i ==> links[k].key != key
      {
        i := i + 1;
      }
    }

    /** The loop over the slots of a group. */
    method FirstFree(files: seq<Option<PathName>>) returns (s: nat)
      ensures s == FreeSlot(files, 0)
    {
      s := 0;
      while s < |files| && files[s].Some?
        invariant 0 <= s <= |files|
        invariant forall k :: 0 <= k < s ==> files[k].Some?
      {
        s := s + 1;
      }
    }

    /** createDirectory; false where a symbolic link stands in the way. */
    method CreateDirectory(path: PathName) returns (ok: bool)
      modifies this`fs
      ensures
        match old(fs).MakeDir(path)
        case None => !ok
        case Some(f) => ok && fs == f
    {
      if fs.IsLink(path) {
        return false;
      }
      if !fs.IsDir(path) {
        fs := fs.Create(path, Directory);
      }
      ok := true;
    }

    /** checkDirectory. */
    method CheckDirectory(path: PathName) returns (ok: bool)
      requires path != []
      modifies this`fs
      ensures
        match old(fs).MakeLeading(path, 1)
        case None => !ok
        case Some(f) => ok && fs == f
    {
      var i := 1;
      while i < |path|
        invariant 1 <= i <= |path|
        invariant old(fs).MakeLeading(path, 1) == fs.MakeLeading(path, i)
      {
        if path[i] == SLASH {
          var made := CreateDirectory(path[..i]);
          if !made {
            return false;
          }
        }
        i := i + 1;
      }
      ok := true;
    }

    /**
     * createLinks on the group at a position in the list; None where the way to a name goes through a symbolic link.
     */
    method LinkPending(at: nat) returns (rc: Option<int>)
      requires at < |links| && LinkShape(links[at])
      modifies this
      ensures
        match CreateLinks(old(fs), old(links)[at], 0)
        case None => rc == None
        case Some(r) =>
          && rc == Some(r.rc) && fs == r.fs && links == old(links)[at := r.li]
          && failed == (old(failed) || r.rc != 0)
    {
      hide Fs.Crosses, Fs.Grounded;
      var li, i := links[at], 0;
      ghost var all := CreateLinks(fs, li, 0);
      while i < li.nlink
        invariant 0 <= i <= li.nlink && LinkShape(li) && CreateLinks(fs, li, i) == all
        invariant links == old(links) && failed == old(failed)
        decreases li.nlink - i
      {
        if i != li.createdPath && li.files[i].Some? {
          var c, p := li.files[li.createdPath].value, li.files[i].value;
          if fs.Crosses(p) {
            return None;
          }
          if fs.IsDir(p) {
            links, failed := links[at := li], true;
            return Some(CPIOERR_UNLINK_FAILED);
          }
          fs := fs.Unlink(p);
          if !fs.Linkable(c, p) {
            links, failed := links[at := li], true;
            return Some(CPIOERR_LINK_FAILED);
          }
          fs := fs.Link(c, p);
          li := li.(files := li.files[i := None], linksLeft := li.linksLeft - 1);
        }
        i := i + 1;
      }
      links := links[at := li];
      rc := Some(0);
    }

    /** The name of a multi-link entry is stored with its group, which is made if it is new. */
    method Enroll(ghost x: Item, path: PathName, key: Key, nlink: nat) returns (ok: bool, at: nat, slot: nat)
      requires Multi(x) && x.path == path && x.key == key && x.nlink == nlink && Shapes(links)
      modifies this
      ensures fs == old(fs) && failed == old(failed)
      ensures
        match Enrolled(old(links), x)
        case NoSlot => !ok
        case Slotted(ls, a, s) => ok && links == ls && at == a && slot == s
    {
      at := Search(key);
      if at == |links| {
        links := [HardLink(key, nlink, nlink, -1, seq(nlink, k => None))] + links;
        at := 0;
        assert links[0].files == NewLink(x).files;
      }
      slot := FirstFree(links[at].files);
      if slot >= links[at].nlink {
        return false, at, slot;
      }
      links := links[at := links[at].(files := links[at].files[slot := Some(path)])];
      ok := true;
    }

    /** expandRegular: the data is copied from the stream into a new file, unless a directory stands there. */
    method ExpandRegular(fd: InFd, path: PathName, size: nat) returns (rc: int)
      requires fd.Valid()
      modifies this`fs, fd
      ensures fd.Valid()
      ensures old(fs).IsDir(path) ==> rc == 9 - 0x8000_0000 && fs == old(fs) && fd.pos == old(fd.pos)
      ensures !old(fs).IsDir(path) ==>
        && fd.pos == Capped(old(fd.pos) + size, fd.data)
        && rc == (if old(fd.pos) + size <= |fd.data| then 0 else CPIOERR_READ_FAILED)
        && fs == old(fs).Create(path, Regular(fd.data[old(fd.pos)..fd.pos]))
    {
      if fs.IsDir(path) {
        return CPIOERR_UNLINK_FAILED;
      }
      ghost var start := fd.pos;
      var left, contents := size, [];
      rc := 0;
      while left > 0
        invariant fd.Valid() && 0 <= left <= size && fd.pos == start + (size - left)
        invariant contents == fd.data[start..fd.pos] && fs == old(fs)
      {
        ghost var at := fd.pos;
        var buf := fd.Read(if left < 8192 then left else 8192);
        if buf == [] {
          rc := CPIOERR_READ_FAILED;
          break;
        }
        assert fd.data[start..fd.pos] == fd.data[start..at] + buf;
        contents := contents + buf;
        left := left - |buf|;
      }
      fs := fs.Create(path, Regular(contents));
    }

    /** The body of the install loop behind the mapping, with the data of the entry at hand. */
    method InstallOne(fd: InFd, p: Plan) returns (e: Event)
      requires fd.Valid() && Shapes(links)
      modifies this, fd
      ensures fd.Valid() && old(fd.pos) <= fd.pos
      ensures
        var r := InstallItem(old(St()), ItemAt(p, fd.data, old(fd.pos)));
        Matches(r, e, St(), p.size, fd.data, old(fd.pos), fd.pos)
    {
      if p.kind.RegularFile? && p.nlink > 1 {
        e := InstallLinked(fd, p);
      } else if p.path == [] {
        e := Overran;
      } else {
        var ok := CheckDirectory(p.path);
        if !ok {
          return WentBeyond;
        }
        e := Alone(fd, p);
      }
    }

    /** A multi-link regular entry: deferred, linked to the created file, or created. */
    method InstallLinked(fd: InFd, p: Plan) returns (e: Event)
      requires fd.Valid() && Shapes(links) && p.kind.RegularFile? && p.nlink > 1
      modifies this, fd
      ensures fd.Valid() && old(fd.pos) <= fd.pos
      ensures
        var r := InstallItem(old(St()), ItemAt(p, fd.data, old(fd.pos)));
        Matches(r, e, St(), p.size, fd.data, old(fd.pos), fd.pos)
    {
      hide CreateLinks, Enrolled, FindLink, FreeSlot, InstallFirst;
      ghost var x := ItemAt(p, fd.data, fd.pos);
      var ok, at, slot := Enroll(x, p.path, p.key, p.nlink);
      if !ok {
        return Overran;
      }
      if p.size == 0 && links[at].createdPath == -1 {
        return Returned(0);
      }
      if links[at].createdPath != -1 {
        var rc := LinkPending(at);
        if rc.None? {
          return WentBeyond;
        }
        if p.size != 0 {
          var _ := fd.EatBytes(p.size);
        }
        e := Returned(0);
      } else {
        e := CreateFirst(fd, p, at, slot, x);
      }
    }

    /** The entry that brings the data of its group. */
    method CreateFirst(fd: InFd, p: Plan, at: nat, slot: nat, ghost x: Item) returns (e: Event)
      requires fd.Valid() && Shapes(links) && at < |links| && slot < links[at].nlink && links[at].files[slot].Some?
      requires x == ItemAt(p, fd.data, fd.pos)
      modifies this, fd
      ensures fd.Valid() && old(fd.pos) <= fd.pos
      ensures Matches(InstallFirst(old(St()), x, at, slot), e, St(), p.size, fd.data, old(fd.pos), fd.pos)
    {
      hide CreateLinks;
      if p.path == [] {
        return Overran;
      }
      var ok := CheckDirectory(p.path);
      if !ok {
        return WentBeyond;
      }
      var rc := ExpandRegular(fd, p.path, p.size);
      ghost var created := fs;
      links := links[at := links[at].(createdPath := slot, linksLeft := links[at].linksLeft - 1)];
      ghost var marked := links;
      var linked := LinkPending(at);
      if linked.None? {
        return WentBeyond;
      }
      assert marked[at := links[at]] == old(links)[at := links[at]];
      e := if rc == CPIOERR_UNLINK_FAILED && linked.value == 0 then Strayed else Returned(linked.value);
    }

    /** Any other entry, with the directories on its way made: a node of its own, or the end of the installation. */
    method Alone(fd: InFd, p: Plan) returns (e: Event)
      requires fd.Valid() && Shapes(links)
      modifies this, fd
      ensures fd.Valid() && old(fd.pos) <= fd.pos
      ensures
        var r := HardLinks.InstallAlone(old(St()), ItemAt(p, fd.data, old(fd.pos)));
        Matches(r, e, St(), p.size, fd.data, old(fd.pos), fd.pos)
    {
      hide CutAtNul, Fs.Create, Fs.Unlink, Fs.Place, Abandoned;
      var rc := 0;
      match p.kind {
        case RegularFile =>
          rc := ExpandRegular(fd, p.path, p.size);
        case DirectoryFile =>
          var ok := CreateDirectory(p.path);
          if !ok {
            return WentBeyond;
          }
        case SymlinkFile =>
          if p.size + 1 == TWO_TO_THE_64 {
            return Overran;
          }
          rc := ExpandSymlink(fd, p.path, p.size);
        case FifoFile =>
          rc := ExpandSpecial(p.path, Fifo);
        case DeviceFile(rdev) =>
          rc := ExpandSpecial(p.path, Device(rdev));
        case UnknownFile =>
          rc := CPIOERR_INTERNAL;
      }
      if rc != 0 {
        GiveUp(p.path);
      }
      e := if rc == 0 && p.size > 0 && !ReadsData(p.kind) then Strayed else Returned(rc);
    }

    /** The first failing file is put on record, and unlinked unless it is a directory. */
    method GiveUp(path: PathName)
      modifies this
      ensures St() == Abandoned(old(St()), path)
    {
      if !failed {
        if !fs.IsDir(path) {
          fs := fs.Unlink(path);
        }
        failed := true;
      }
    }

    /** expandSymlink. */
    method ExpandSymlink(fd: InFd, path: PathName, size: nat) returns (rc: int)
      requires fd.Valid() && size + 1 != TWO_TO_THE_64
      modifies this`fs, fd
      ensures fd.Valid() && old(fd.pos) <= fd.pos
      ensures
        var data := fd.data[old(fd.pos)..Capped(old(fd.pos) + size, fd.data)];
        if size + 1 > 2048 then rc == CPIOERR_INTERNAL && fs == old(fs)
        else if |data| != size then rc == CPIOERR_READ_FAILED && fs == old(fs)
        else if old(fs).IsDir(path) then rc == 9 - 0x8000_0000 && fs == old(fs)
        else if CutAtNul(data) == [] then rc == CPIOERR_SYMLINK_FAILED && fs == old(fs).Unlink(path)
        else rc == 0 && fs == old(fs).Place(path, Symlink(CutAtNul(data))) && fd.pos == old(fd.pos) + size
    {
      if size + 1 > 2048 {
        return CPIOERR_INTERNAL;
      }
      var data := fd.Read(size);
      if |data| != size {
        return CPIOERR_READ_FAILED;
      }
      var target := CutAtNul(data);
      if fs.IsLink(path) && fs.NodeOf(path).target == target && target != [] {
        return 0;
      }
      if fs.IsDir(path) {
        return CPIOERR_UNLINK_FAILED;
      }
      fs := fs.Unlink(path);
      if target == [] {
        return CPIOERR_SYMLINK_FAILED;
      }
      fs := fs.Create(path, Symlink(target));
      assert fs.names == old(fs).Create(path, Symlink(target)).names;
      rc := 0;
    }

    /** expandFifo and expandDevice. */
    method ExpandSpecial(path: PathName, node: Node) returns (rc: int)
      requires !node.Directory?
      modifies this`fs
      ensures
        if old(fs).IsDir(path) then rc == 9 - 0x8000_0000 && fs == old(fs)
        else rc == 0 && fs == old(fs).Place(path, node)
    {
      if fs.Exists(path) && fs.NodeOf(path) == node {
        return 0;
      }
      if fs.IsDir(path) {
        return CPIOERR_UNLINK_FAILED;
      }
      fs := fs.Create(path, node);
      rc := 0;
    }

    /** The pass over the groups after the trailer. */
    method Close() returns (e: Event)
      requires Shapes(links)
      modifies this
      ensures
        match ClosingPass(old(fs), old(links))
        case None => e == WentBeyond
        case Some(r) => e == Returned(r.0) && fs == r.1
    {
      hide CreateLinks;
      var rc := 0;
      var k := 0;
      assert links[0..] == links;
      while k < |links| && rc == 0
        invariant 0 <= k <= |links| && Shapes(links)
        invariant ClosingPass(old(fs), old(links)) == if rc == 0 then ClosingPass(fs, links[k..]) else Some((rc, fs))
      {
        ghost var rest := links[k..];
        assert rest[0] == links[k] && rest[1..] == links[k + 1..];
        if links[k].linksLeft != 0 {
          if links[k].createdPath == -1 {
            rc := CPIOERR_INTERNAL;
          } else {
            var linked := LinkPending(k);
            if linked.None? {
              return WentBeyond;
            }
            rc := linked.value;
            assert links[k + 1..] == rest[1..];
          }
        }
        k := k + 1;
      }
      e := Returned(rc);
    }
  }

  // ---------- the run over the stream ----------

  /** What handling the entry behind header `h` does to the installer. */
  function Handle(st: State, data: seq<byte>, h: Header, mappings: Mappings): (r: Step)
    requires HeaderReadable(h.raw) && h.next <= |data| && Shapes(st.links)
    ensures r.Went? || r.Astray? ==> Shapes(r.st.links)
  {
    match PlanFor(h.raw, h.name, mappings)
    case None => Went(0, st)
    case Some(p) => InstallItem(st, ItemAt(p, data, h.next))
  }

  /** Where the padded stream stands behind an entry: at its end, or still at its data. */
  function PlaceAfter(r: Step, data: seq<byte>, h: Header): (pos: nat)
    requires HeaderReadable(h.raw) && h.next <= |data|
    ensures h.next <= pos <= |data|
  {
    PaddedIn(if r.Astray? then h.next else Capped(h.next + DataSize(h.raw), data), data)
  }

  /** An installation from `pos` on, for any stream. */
  function InstallFrom(st: State, data: seq<byte>, pos: nat, mappings: Mappings): (r: Step)
    requires pos <= |data| && Shapes(st.links)
    decreases |data| - pos
  {
    match HeaderAt(data, pos)
    case None => if NegativeName(data, pos) then Overrun else Went(CPIOERR_BAD_HEADER, st)
    case Some(h) =>
      if Path(h.name) == TRAILER then Closed(st)
      else
        var r := Handle(st, data, h, mappings);
        if GoesOn(r) || r.Astray? then InstallFrom(r.st, data, PlaceAfter(r, data, h), mappings) else r
  }

  /** One entry: skipped or installed. */
  method InstallNext(installer: Installer, fd: InFd, h: Header, mappings: Mappings) returns (e: Event)
    requires fd.Valid() && fd.pos == h.next && HeaderReadable(h.raw) && Shapes(installer.links)
    modifies installer, fd
    ensures fd.Valid() && old(fd.pos) <= fd.pos
    ensures
      var r := Handle(old(installer.St()), fd.data, h, mappings);
      match r
      case Overrun => e == Overran
      case Beyond => e == WentBeyond
      case Astray(st) => e == Strayed && installer.St() == st && fd.pos == PlaceAfter(r, fd.data, h)
      case Went(rc, st) =>
        e == Returned(rc) && installer.St() == st && (rc == 0 ==> fd.pos == PlaceAfter(r, fd.data, h))
  {
    hide HeaderReadable, DataSize, InstallItem, Padding, PlanFor, CutAtNul;
    var plan := PlanFor(h.raw, h.name, mappings);
    if plan.None? {
      e := Returned(0);
      var _ := fd.EatBytes(DataSize(h.raw));
    } else {
      e := installer.InstallOne(fd, plan.value);
    }
    fd.PadIn();
  }

  /** myCpioInstallArchive, on every stream. */
  method InstallArchive(installer: Installer, fd: InFd, mappings: Mappings) returns (e: Event)
    requires fd.Valid() && fd.pos == 0 && installer.links == [] && !installer.failed
    modifies installer, fd
    ensures
      match InstallFrom(State(old(installer.fs), [], false), fd.data, 0, mappings)
      case Overrun => e == Overran
      case Went(rc, st) => e == Returned(rc) && installer.fs == st.fs
      case _ => e == WentBeyond
  {
    hide HeaderReadable, HeaderAt, CutAtNul, Handle, PlaceAfter, ClosingPass;
    ghost var result := InstallFrom(installer.St(), fd.data, 0, mappings);
    while true
      invariant fd.Valid() && Shapes(installer.links)
      invariant result == InstallFrom(installer.St(), fd.data, fd.pos, mappings)
      decreases |fd.data| - fd.pos
    {
      var defined, _, header := fd.GetNextHeader();
      if header.None? {
        return if defined then Returned(CPIOERR_BAD_HEADER) else Overran;
      }
      if Path(header.value.name) == TRAILER {
        break;
      }
      e := InstallNext(installer, fd, header.value, mappings);
      if e != Returned(0) && e != Strayed {
        return;
      }
    }
    e := installer.Close();
  }

  // ---------- keeping the place in the stream ----------

  /** The group of the entry has no file yet. */
  predicate Fresh(links: seq<HardLink>, key: Key) {
    var i := FindLink(links, key);
    i < |links| ==> links[i].createdPath == -1
  }

  /**
   * Entries whose data stays in the stream: directories, fifos, devices, and the data of a group where a directory
   * stands.
   */
  predicate LeavesData(st: State, x: Item) {
    HasData(x) &&
    (x.kind.DirectoryFile? || x.kind.FifoFile? || x.kind.DeviceFile?
     || (Multi(x) && Fresh(st.links, x.key) && st.fs.IsDir(x.path)))
  }

  /** A run that gets behind an entry leaves its data unread exactly there. */
  lemma {:induction false} StraysExactly(st: State, x: Item)
    requires Shapes(st.links) && st.fs.Valid()
    ensures
      var r := InstallItem(st, x);
      GoesOn(r) || r.Astray? ==> (r.Astray? <==> LeavesData(st, x))
  {
    hide CreateLinks, Untouched, FreeSlot, Led, FindLink, InstallFirst, Fs.MakeLeading;
    if Multi(x) {
      var e := Enrolled(st.links, x);
      if e.Slotted? {
        assert e.links[e.at].createdPath == -1 <==> Fresh(st.links, x.key);
        FirstStrays(st.(links := e.links), x, e.at, e.slot);
      }
    }
  }

  lemma {:induction false} FirstStrays(st: State, x: Item, at: nat, slot: nat)
    requires Shapes(st.links) && at < |st.links| && slot < st.links[at].nlink && st.links[at].files[slot].Some?
      && st.fs.Valid()
    ensures
      var r := InstallFirst(st, x, at, slot);
      GoesOn(r) || r.Astray? ==> (r.Astray? <==> st.fs.IsDir(x.path))
  {
    hide CreateLinks, Untouched, Led;
    if x.path != [] {
      LeadingMade(st.fs, x.path, 1);
      var r := st.fs.MakeLeading(x.path, 1);
      if r.Some? {
        WayKeeps(st.fs, r.value, x.path);
      }
    }
  }

  lemma {:induction false} WayKeeps(fs: Fs, led: Fs, path: PathName)
    requires fs.Valid() && Led(fs, led, path, 1)
    ensures (led.IsDir(path) <==> fs.IsDir(path)) && (led.IsLink(path) <==> fs.IsLink(path))
  {
    hide Untouched;
    assert !IsLeading(path, path);
    UntouchedNode(fs, led, path);
  }

  /** Behind a complete entry the stream is in place if and only if its data did not stay in the stream. */
  lemma {:induction false} InPlaceExactly(st: State, data: seq<byte>, pos: nat, h: Header, p: Plan, mappings: Mappings)
    requires pos <= |data| && HeaderAt(data, pos) == Some(h) && h.next + DataSize(h.raw) <= |data|
    requires Shapes(st.links) && st.fs.Valid() && PlanFor(h.raw, h.name, mappings) == Some(p)
    requires var r := Handle(st, data, h, mappings); GoesOn(r) || r.Astray?
    ensures
      var end := h.next + DataSize(h.raw);
      PlaceAfter(Handle(st, data, h, mappings), data, h) == PaddedIn(end, data)
      <==> !LeavesData(st, ItemOf(p, data[h.next..end]))
  {
    hide HeaderReadable, DataSize, PlanFor, CutAtNul, Padding, HeaderAt, InstallItem, LeavesData;
    HeaderPadded(data, pos, h);
    StraysExactly(st, ItemOf(p, data[h.next..h.next + DataSize(h.raw)]));
    if Handle(st, data, h, mappings).Astray? {
      StrayHasData(st, ItemOf(p, data[h.next..h.next + DataSize(h.raw)]));
    }
  }

  lemma {:induction false} StrayHasData(st: State, x: Item)
    requires LeavesData(st, x)
    ensures HasData(x)
  {
  }

  /** Data starts at a multiple of four, or at the end of the stream. */
  lemma {:induction false} HeaderPadded(data: seq<byte>, pos: nat, h: Header)
    requires pos <= |data| && HeaderAt(data, pos) == Some(h)
    ensures PaddedIn(h.next, data) == h.next
  {
    hide HeaderReadable, NameSize;
  }

  ghost predicate Readable(es: seq<Entry>) {
    forall i :: 0 <= i < |es| ==> HeaderReadable(es[i].raw)
  }

  lemma {:induction false} ItemsAppend(es: seq<Entry>, e: Entry, mappings: Mappings)
    requires Readable(es) && HeaderReadable(e.raw)
    ensures Readable(es + [e])
    ensures ItemsOf(es + [e], mappings)
         == match PlanFor(e.raw, e.name, mappings)
            case None => ItemsOf(es, mappings)
            case Some(p) => ItemsOf(es, mappings) + [ItemOf(p, e.data)]
  {
    hide HeaderReadable, PlanFor;
    assert (es + [e])[..|es|] == es;
  }

  lemma {:induction false} ItemsPrefix(es: seq<Entry>, more: seq<Entry>, mappings: Mappings)
    requires Readable(es) && Readable(es + more)
    ensures ItemsOf(es, mappings) <= ItemsOf(es + more, mappings)
    decreases |more|
  {
    hide HeaderReadable, PlanFor;
    if more == [] {
      assert es + more == es;
    } else {
      var last := |more| - 1;
      assert (es + more)[..|es + more| - 1] == es + more[..last];
      assert forall i :: 0 <= i < |es + more[..last]| ==> (es + more[..last])[i] == (es + more)[i];
      ItemsPrefix(es, more[..last], mappings);
    }
  }

  lemma {:induction false} NextEntry(data: seq<byte>, pos: nat, es: seq<Entry>, h: Header) returns (e: Entry)
    requires EntriesFrom(data, 0).Some? && pos <= |data|
    requires EntriesFrom(data, 0) == CpioFilter.Prepended(es, EntriesFrom(data, pos))
    requires HeaderAt(data, pos) == Some(h) && Path(h.name) != TRAILER
    ensures h.next + DataSize(h.raw) <= |data|
    ensures e == Entry(h.raw, h.name, data[h.next..h.next + DataSize(h.raw)])
    ensures
      var pos' := PaddedIn(h.next + DataSize(h.raw), data);
      && EntriesFrom(data, 0) == CpioFilter.Prepended(es + [e], EntriesFrom(data, pos'))
      && pos' % 4 == 0 && pos' + HEADER_SIZE <= |data|
      && es + [e] <= EntriesFrom(data, 0).value
  {
    hide EntriesFrom, HeaderReadable, DataSize, CutAtNul, HeaderAt, PaddedIn;
    CpioFilter.EntryAt(data, pos, h);
    var end := h.next + DataSize(h.raw);
    e := Entry(h.raw, h.name, data[h.next..end]);
    CpioFilter.PrependedStep(es, e, EntriesFrom(data, PaddedIn(end, data)));
    CpioFilter.NextHeaderAligned(data, end);
  }

  lemma {:induction false} InstallAllAppend(st: State, xs: seq<Item>, x: Item, before: State)
    requires Shapes(st.links) && InstallAll(st, xs) == Went(0, before)
    ensures InstallAll(st, xs + [x]) == InstallItem(before, x)
  {
    hide InstallItem;
    assert (xs + [x])[..|xs|] == xs;
  }

  /**
   * The rest of an installation, seen from the archive as a whole: `es` are installed, the stream is at the next
   * header.
   */
  lemma {:induction false} FollowsFrom(data: seq<byte>, start: State, st: State, pos: nat, es: seq<Entry>,
                                       mappings: Mappings)
    requires EntriesFrom(data, 0).Some? && Readable(EntriesFrom(data, 0).value) && Readable(es)
    requires start.links == [] && pos <= |data| && Shapes(st.links)
    requires !InstallAll(start, ItemsOf(EntriesFrom(data, 0).value, mappings)).Astray?
    requires EntriesFrom(data, 0) == CpioFilter.Prepended(es, EntriesFrom(data, pos))
    requires InstallAll(start, ItemsOf(es, mappings)) == Went(0, st)
    ensures InstallFrom(st, data, pos, mappings) == Install(start, ItemsOf(EntriesFrom(data, 0).value, mappings))
    decreases |data| - pos
  {
    hide EntriesFrom, HeaderReadable, HeaderAt, CutAtNul, InstallItem, DataSize, PaddedIn, InstallAll, ItemsOf,
      PlanFor, Closed, Handle;
    var all := EntriesFrom(data, 0).value;
    CpioFilter.HeaderDecides(data, pos);
    var h := HeaderAt(data, pos).value;
    if Path(h.name) == TRAILER {
      assert es + [] == es;
    } else {
      var e := NextEntry(data, pos, es, h);
      assert all[|es|] == e;
      HandledEntry(data, start, st, pos, es, h, e, mappings);
      var step, es' := Handle(st, data, h, mappings), es + [e];
      ItemsAppend(es, e, mappings);
      if GoesOn(step) {
        FollowsFrom(data, start, step.st, PlaceAfter(step, data, h), es', mappings);
      } else {
        assert es' + all[|es'|..] == all;
        ItemsPrefix(es', all[|es'|..], mappings);
        EndStays(start, ItemsOf(es', mappings), ItemsOf(all, mappings));
      }
    }
  }

  /** Handling one more complete entry is installing it. */
  lemma {:induction false} HandledEntry(data: seq<byte>, start: State, st: State, pos: nat, es: seq<Entry>,
                                        h: Header, e: Entry, mappings: Mappings)
    requires pos <= |data| && HeaderAt(data, pos) == Some(h) && h.next + DataSize(h.raw) <= |data| && Readable(es)
    requires e == Entry(h.raw, h.name, data[h.next..h.next + DataSize(h.raw)])
    requires start.links == [] && Shapes(st.links) && InstallAll(start, ItemsOf(es, mappings)) == Went(0, st)
    ensures Readable(es + [e]) && InstallAll(start, ItemsOf(es + [e], mappings)) == Handle(st, data, h, mappings)
  {
    hide EntriesFrom, HeaderReadable, HeaderAt, CutAtNul, InstallItem, DataSize, InstallAll, ItemsOf, PlanFor;
    ItemsAppend(es, e, mappings);
    var plan := PlanFor(h.raw, h.name, mappings);
    if plan.Some? {
      InstallAllAppend(start, ItemsOf(es, mappings), ItemOf(plan.value, e.data), st);
    }
  }

  /** On a readable archive, as long as no data stays unread, the entries are installed one after the other. */
  lemma {:induction false} InstallFollows(fs: Fs, data: seq<byte>, mappings: Mappings)
    requires EntriesFrom(data, 0).Some?
    ensures Readable(EntriesFrom(data, 0).value)
    ensures !InstallAll(State(fs, [], false), ItemsOf(EntriesFrom(data, 0).value, mappings)).Astray? ==>
      InstallFrom(State(fs, [], false), data, 0, mappings)
      == Install(State(fs, [], false), ItemsOf(EntriesFrom(data, 0).value, mappings))
  {
    hide EntriesFrom, HeaderReadable, InstallItem, InstallFrom, Install, PlanFor;
    CpioFilter.EntriesParsed(data, 0);
    CpioFilter.StartsRunning(data, _ => true);
    if !InstallAll(State(fs, [], false), ItemsOf(EntriesFrom(data, 0).value, mappings)).Astray? {
      FollowsFrom(data, State(fs, [], false), State(fs, [], false), 0, [], mappings);
    }
  }

  /** No entry that the installation comes to leaves its data unread. */
  ghost predicate StaysInPlace(st: State, data: seq<byte>, pos: nat, mappings: Mappings)
    requires pos <= |data| && Shapes(st.links)
    decreases |data| - pos
  {
    match HeaderAt(data, pos)
    case None => true
    case Some(h) =>
      Path(h.name) == TRAILER ||
      var r := Handle(st, data, h, mappings);
      !r.Astray? && (GoesOn(r) ==> StaysInPlace(r.st, data, PlaceAfter(r, data, h), mappings))
  }

  /** A damaged archive is never reported as installed, as long as the place in the stream is kept. */
  lemma {:induction false} SuccessMeansReadable(st: State, data: seq<byte>, pos: nat, mappings: Mappings)
    requires pos <= |data| && Shapes(st.links) && StaysInPlace(st, data, pos, mappings)
    requires GoesOn(InstallFrom(st, data, pos, mappings))
    ensures EntriesFrom(data, pos).Some?
    decreases |data| - pos
  {
    hide HeaderReadable, HeaderAt, CutAtNul, Handle, DataSize, PaddedIn, PlanFor, Closed;
    var h := HeaderAt(data, pos).value;
    if Path(h.name) != TRAILER {
      var r := Handle(st, data, h, mappings);
      SuccessMeansReadable(r.st, data, PlaceAfter(r, data, h), mappings);
      NothingAt(data);
    }
  }

  lemma {:induction false} NothingAt(data: seq<byte>)
    ensures PaddedIn(|data|, data) == |data| && HeaderAt(data, |data|) == None
  {
    hide HeaderReadable;
  }

  /**
   * The installation of a readable archive. Where the run theorems apply, entries and the directories at the start
   * decide exactly whether an array is overrun, whether the run comes to its end, what the closing pass returns and
   * what is on disk then; on orderly archives all of this is as it should be. As long as no data stays unread, paths
   * that no entry names or leads through are untouched, and no array is overrun if the groups fit their slots.
   */
  method InstallReadable(installer: Installer, fd: InFd, mappings: Mappings) returns (e: Event)
    requires fd.Valid() && fd.pos == 0 && installer.links == [] && !installer.failed && installer.fs.Valid()
    requires EntriesFrom(fd.data, 0).Some? && Readable(EntriesFrom(fd.data, 0).value)
    modifies installer, fd
    ensures
      var fs, xs := old(installer.fs), ItemsOf(EntriesFrom(fd.data, 0).value, mappings);
      && (Tame(fs, xs) && Overruns(fs, xs) ==> e == Overran)
      && (Tame(fs, xs) && RunsOn(fs, xs) ==>
            && e.Returned? && (e.rc == 0 <==> AllComplete(fs, xs))
            && (e.rc == 0 || e.rc == CPIOERR_INTERNAL ==> installer.fs == Reference(fs, xs)))
      && (Orderly(fs, xs) ==>
            e == Returned(if EveryGroupHasData(xs) then 0 else CPIOERR_INTERNAL) && installer.fs == Reference(fs, xs))
      && (e.Returned? && !InstallAll(State(fs, [], false), xs).Astray? ==>
            forall p :: !Names(xs, p) && OneSpelling(fs, xs, p) ==> Untouched(fs, installer.fs, p))
      && (LinkSlots.Sound(xs) && !InstallAll(State(fs, [], false), xs).Astray? ==> e != Overran)
  {
    hide EntriesFrom, ItemsOf, InstallFrom, Orderly, EveryGroupHasData, Untouched, HeaderReadable, PlanFor, Tame,
      Overruns, RunsOn, InstallAll, Closed, AllComplete, Reference, Fault, Names, OneSpelling, LinkSlots.Sound;
    ghost var fs, xs := installer.fs, ItemsOf(EntriesFrom(fd.data, 0).value, mappings);
    if LinkSlots.Sound(xs) {
      LinkSlots.NeverOverruns(State(fs, [], false), xs);
    }
    forall p | !Names(xs, p) && OneSpelling(fs, xs, p)
      ensures
        var r := Install(State(fs, [], false), xs);
        r.Went? ==> Untouched(fs, r.st.fs, p)
    {
      InstallFrame(fs, xs, p);
    }
    InstallFollows(fs, fd.data, mappings);
    if Tame(fs, xs) {
      RunOutcome(fs, xs);
      RunExactly(State(fs, [], false), xs);
    }
    if Orderly(fs, xs) {
      OrderlyRuns(fs, xs);
      RunExactly(State(fs, [], false), xs);
      InstallOutcome(fs, xs);
    }
    e := InstallArchive(installer, fd, mappings);
  }

  // ---------- an archive of one entry ----------

  /** The installation succeeds, and the node is what is at the path then. */
  ghost predicate Leaves(r: Step, path: PathName, node: Node) {
    GoesOn(r) && r.st.fs.Exists(path) && r.st.fs.NodeOf(path) == node
  }

  /** What an entry outside the groups leaves at its path, by its kind. */
  lemma {:induction false} AloneLeaves(fs: Fs, x: Item)
    requires fs.Valid() && !Multi(x) && x.missing == 0 && x.path != []
    requires !fs.IsDir(x.path) && !fs.IsLink(x.path) && forall q :: IsLeading(q, x.path) ==> !fs.IsLink(q)
    ensures
      var r := Install(State(fs, [], false), [x]);
      && (x.kind.RegularFile? ==> Leaves(r, x.path, Regular(x.data)))
      && (x.kind.SymlinkFile? && 0 < |Target(x)| && |x.data| < 2048 ==> Leaves(r, x.path, Symlink(Target(x))))
      && (x.kind.DirectoryFile? && x.data == [] ==> Leaves(r, x.path, Directory))
      && (x.kind.FifoFile? && x.data == [] ==> Leaves(r, x.path, Fifo))
      && (x.kind.DeviceFile? && x.data == [] ==> Leaves(r, x.path, Device(x.kind.rdev)))
      && (x.kind.UnknownFile? ==> r.Went? && r.rc == CPIOERR_INTERNAL)
  {
    hide Led, CutAtNul, InstallAll, Untouched;
    var st := State(fs, [], false);
    assert [x] == [] + [x];
    NothingInstalled(st);
    InstallAllAppend(st, [], x, st);
    LeadingMade(fs, x.path, 1);
    var led := fs.MakeLeading(x.path, 1).value;
    WayKeeps(fs, led, x.path);
    if x.kind.DirectoryFile? {
      Created(led, x.path, Directory);
    } else if x.kind.FifoFile? {
      Created(led, x.path, Fifo);
    } else if x.kind.DeviceFile? {
      Created(led, x.path, Device(x.kind.rdev));
    } else if x.kind.SymlinkFile? {
      Created(led, x.path, Symlink(Target(x)));
    } else {
      Created(led, x.path, Regular(x.data));
    }
  }

  /** How such an entry fails: the error, and that a file which failed is gone while a directory in its place stays. */
  lemma {:induction false} AloneFails(fs: Fs, x: Item)
    requires fs.Valid() && !Multi(x) && x.path != [] && |x.data| + x.missing < 0xffff_ffff_ffff_ffff
    requires forall q :: IsLeading(q, x.path) ==> !fs.IsLink(q)
    ensures
      var r := Install(State(fs, [], false), [x]);
      && (x.kind.UnknownFile? || (x.kind.SymlinkFile? && |x.data| + x.missing >= 2048) ==> FailsWith(fs, x, r, 20))
      && (x.kind.SymlinkFile? && |x.data| + x.missing < 2048 && x.missing > 0 ==>
            FailsWith(fs, x, r, 18 - 0x8000_0000))
      && (x.kind.RegularFile? && !fs.IsDir(x.path) && x.missing > 0 ==> FailsWith(fs, x, r, 18 - 0x8000_0000))
      && (x.kind.SymlinkFile? && |x.data| < 2048 && x.missing == 0 && !fs.IsDir(x.path) && Target(x) == [] ==>
            FailsWith(fs, x, r, 11 - 0x8000_0000))
      && (x.kind.SymlinkFile? && |x.data| < 2048 && x.missing == 0 && fs.IsDir(x.path) ==>
            FailsWith(fs, x, r, 9 - 0x8000_0000))
      && ((x.kind.RegularFile? || x.kind.FifoFile? || x.kind.DeviceFile?) && fs.IsDir(x.path) ==>
            FailsWith(fs, x, r, 9 - 0x8000_0000))
  {
    hide Led, CutAtNul, InstallAll, Untouched;
    var st := State(fs, [], false);
    assert [x] == [] + [x];
    NothingInstalled(st);
    InstallAllAppend(st, [], x, st);
    LeadingMade(fs, x.path, 1);
    var led := fs.MakeLeading(x.path, 1).value;
    WayKeeps(fs, led, x.path);
  }

  ghost predicate FailsWith(fs: Fs, x: Item, r: Step, rc: int) {
    r.Went? && r.rc == rc && (if fs.IsDir(x.path) then r.st.fs.IsDir(x.path) else x.path !in r.st.fs.names)
  }

  lemma {:induction false} NothingInstalled(st: State)
    requires Shapes(st.links)
    ensures InstallAll(st, []) == Went(0, st)
  {
  }

  /**
   * An archive of one entry with a single link: its type, as the mode field has it, decides what stands at its path
   * after the installation.
   */
  lemma {:induction false} InstallsEntry(fs: Fs, e: Entry, permissions: nat)
    requires fs.Valid() && CpioFilter.WellFormed(e) && permissions < 0x1000 && Path(e.name) != []
    requires NumericField(e.raw, 4).value <= 1
    requires !fs.IsDir(Path(e.name)) && !fs.IsLink(Path(e.name))
    requires forall q :: IsLeading(q, Path(e.name)) ==> !fs.IsLink(q)
    ensures
      var r, path := InstallFrom(State(fs, [], false), CpioFilter.Archive([e]), 0, None), Path(e.name);
      var mode := NumericField(e.raw, 1).value;
      && (mode == 0x8000 + permissions ==> Leaves(r, path, Regular(e.data)))
      && (mode == 0xa000 + permissions && 0 < |Path(e.data)| && |e.data| < 2048 ==>
            Leaves(r, path, Symlink(Path(e.data))))
      && (mode == 0x4000 + permissions && e.data == [] ==> Leaves(r, path, Directory))
      && ((mode == 0x1000 + permissions || mode == 0xc000 + permissions) && e.data == [] ==> Leaves(r, path, Fifo))
      && ((mode == 0x2000 + permissions || mode == 0x6000 + permissions) && e.data == [] ==>
            Leaves(r, path, Device((NumericField(e.raw, 9).value, NumericField(e.raw, 10).value))))
  {
    hide HeaderReadable, NumericField, DataSize, CutAtNul, InstallFrom, Install, KindOf, CpioFilter.Archive, Leaves;
    FieldsReadable(e.raw);
    var p := PlanFor(e.raw, e.name, None).value;
    KindExactly(0, permissions, (NumericField(e.raw, 9).value, NumericField(e.raw, 10).value));
    AloneLeaves(fs, ItemOf(p, e.data));
    OneFollows(fs, e, p);
    LeavesGoesOn();
  }

  lemma {:induction false} LeavesGoesOn()
    ensures forall r, path, node :: Leaves(r, path, node) ==> GoesOn(r)
  {
  }

  /** The installation of an archive of one entry installs that entry. */
  lemma {:induction false} OneFollows(fs: Fs, e: Entry, p: Plan)
    requires CpioFilter.WellFormed(e) && PlanFor(e.raw, e.name, None) == Some(p)
    ensures
      var st := State(fs, [], false);
      var r := Install(st, [ItemOf(p, e.data)]);
      GoesOn(r) ==> InstallFrom(st, CpioFilter.Archive([e]), 0, None) == r
  {
    hide HeaderReadable, DataSize, CutAtNul, InstallFrom, Install, PlanFor, CpioFilter.Archive, CpioFilter.Body,
      CpioFilter.TrailerBlock, EntriesFrom, InstallAll, ItemsOf;
    var data, x := CpioFilter.Archive([e]), ItemOf(p, e.data);
    ArchiveHolds([e]);
    CpioFilter.BodyReadBack(data, 0, [e]);
    assert [e] == [] + [e] && [x] == [] + [x];
    NoItems();
    ItemsAppend([], e, None);
    InstallFollows(fs, data, None);
    NotAstray(State(fs, [], false), [x]);
  }

  lemma {:induction false} NoItems()
    ensures ItemsOf([], None) == []
  {
  }

  lemma {:induction false} FieldsReadable(raw: RawHeader)
    requires HeaderReadable(raw)
    ensures forall k :: 0 <= k < 12 ==> NumericField(raw, k).Some?
  {
    hide NumericField;
  }

  lemma {:induction false} NotAstray(st: State, xs: seq<Item>)
    requires st.links == []
    ensures GoesOn(Install(st, xs)) ==> !InstallAll(st, xs).Astray?
  {
    hide InstallAll;
  }

  // ---------- losing the place ----------

  /**
   * The header of an entry with one link, four bytes of data and a name of one character; `t` is its type.
   */
  function SampleHeader(t: nat): (h: RawHeader)
    requires t < 16
  {
    HeaderOf(SampleFields(t))
  }

  function SampleFields(t: nat): (f: seq<nat>) {
    [0, 0x1000 * t, 0, 0, 1, 0, 4, 0, 0, 0, 0, 2]
  }

  lemma {:induction false} SampleReadBack(t: nat)
    requires t < 16
    ensures HeaderReadable(SampleHeader(t)) && NameSize(SampleHeader(t)) == 2 && DataSize(SampleHeader(t)) == 4
    ensures NumericField(SampleHeader(t), 1) == Some(0x1000 * t)
  {
    hide NumericField, HeaderOf;
    HeaderReadBack(SampleFields(t));
  }

  /** The entry `d` with four bytes of zeros. */
  function Sample(t: nat): (e: Entry)
    requires t < 16
  {
    Entry(SampleHeader(t), [100, 0], [0, 0, 0, 0])
  }

  lemma {:induction false} SampleWellFormed(t: nat)
    requires t < 16
    ensures CpioFilter.WellFormed(Sample(t)) && Path(Sample(t).name) == [100]
  {
    hide HeaderReadable, NameSize, DataSize, SampleHeader;
    SampleReadBack(t);
    assert [100, 0] == [100] + [0];
    CutAt([100], [0]);
  }

  /** An archive of one entry, written as the filter writes it, is readable and holds the data behind the head. */
  lemma {:induction false} ArchiveOfOne(e: Entry) returns (h: Header)
    requires CpioFilter.WellFormed(e) && e.data != []
    ensures
      var data := CpioFilter.Archive([e]);
      && EntriesFrom(data, 0) == Some([e])
      && HeaderAt(data, 0) == Some(h) && h.raw == e.raw && h.name == e.name
      && h.next < |data| && data[h.next] == e.data[0]
  {
    hide HeaderReadable, NameSize, DataSize, HeaderAt, EntriesFrom, CutAtNul, CpioFilter.EmittedHead,
      CpioFilter.TrailerBlock, CpioFilter.Archive, CpioFilter.Body, Padding;
    var data := CpioFilter.Archive([e]);
    ArchiveHolds([e]);
    CpioFilter.BodyReadBack(data, 0, [e]);
    BodyOfOne(e);
    var head := CpioFilter.EmittedHead(e.raw, Path(e.name));
    CpioFilter.AtSplit(data, 0, CpioFilter.Emitted(e), CpioFilter.TrailerBlock());
    CpioFilter.AtSplit(data, 0, head, CpioFilter.EmittedData(e.data));
    CpioFilter.HeadReadBack(data, 0, e.raw, e.name);
    h := HeaderAt(data, 0).value;
    assert data[h.next + 0] == CpioFilter.EmittedData(e.data)[0] == e.data[0];
  }

  lemma {:induction false} BodyOfOne(e: Entry)
    ensures CpioFilter.Body([e]) == CpioFilter.Emitted(e)
  {
    assert [e][..0] == [];
    assert CpioFilter.Body([]) == [];
  }

  lemma {:induction false} ArchiveHolds(es: seq<Entry>)
    ensures CpioFilter.At(CpioFilter.Archive(es), 0, CpioFilter.Body(es) + CpioFilter.TrailerBlock())
  {
    hide CpioFilter.Body, CpioFilter.TrailerBlock;
  }

  /** A directory whose data is no header: it is made, and the rest of the archive is refused. */
  lemma {:induction false} StopsBehind(st: State, data: seq<byte>, h: Header, p: Plan, mappings: Mappings)
    requires HeaderAt(data, 0) == Some(h) && Path(h.name) != TRAILER && Shapes(st.links)
    requires PlanFor(h.raw, h.name, mappings) == Some(p) && p.kind.DirectoryFile?
    requires PaddedIn(h.next, data) == h.next && HeaderAt(data, h.next) == None && !NegativeName(data, h.next)
    requires |p.path| == 1 && p.size > 0 && !st.fs.IsLink(p.path)
    ensures InstallFrom(st, data, 0, mappings) == Went(3, st.(fs := st.fs.Place(p.path, Directory)))
  {
    hide HeaderReadable, DataSize, HeaderAt, CutAtNul, PlanFor, PaddedIn;
    var st' := st.(fs := st.fs.Place(p.path, Directory));
    assert Handle(st, data, h, mappings) == Astray(st') && PlaceAfter(Astray(st'), data, h) == h.next;
    assert InstallFrom(st', data, h.next, mappings) == Went(CPIOERR_BAD_HEADER, st');
  }

  /**
   * An entry with data that is taken for a directory: it is made, its data is taken for a header, the archive is
   * refused.
   */
  lemma {:induction false} LosesPlace(st: State, data: seq<byte>, e: Entry, mappings: Mappings, p: Plan)
    requires CpioFilter.WellFormed(e) && e.data != [] && e.data[0] != 48 && data == CpioFilter.Archive([e])
      && Shapes(st.links)
    requires PlanFor(e.raw, e.name, mappings) == Some(p) && p.kind.DirectoryFile? && |p.path| == 1
      && !st.fs.IsLink(p.path)
    ensures EntriesFrom(data, 0) == Some([e])
    ensures InstallFrom(st, data, 0, mappings) == Went(3, st.(fs := st.fs.Place(p.path, Directory)))
  {
    hide HeaderReadable, HeaderAt, EntriesFrom, CutAtNul, PlanFor, CpioFilter.Archive, PaddedIn, InstallFrom;
    var h := ArchiveOfOne(e);
    HeaderPadded(data, 0, h);
    NoHeader(data, h.next);
    StopsBehind(st, data, h, p, mappings);
  }

  lemma {:induction false} NoHeader(data: seq<byte>, pos: nat)
    requires pos < |data| && data[pos] != 48
    ensures HeaderAt(data, pos) == None && !NegativeName(data, pos)
  {
    if pos + HEADER_SIZE <= |data| {
      var raw := data[pos..pos + HEADER_SIZE];
      assert raw[..6][0] != 48;
      assert NEWC_MAGIC[0] == 48 && CRC_MAGIC[0] == 48;
    }
  }

  /** The entry is taken for a directory if its mode, or the mode that the mapping gives it, says so. */
  lemma {:induction false} SamplePlan(t: nat, mappings: Mappings) returns (p: Plan)
    requires t < 16
    requires (mappings == None && t == 4) || mappings == Some(map[[100] := Mapping(None, Some(0x4000))])
    ensures HeaderReadable(SampleHeader(t)) && PlanFor(SampleHeader(t), [100, 0], mappings) == Some(p)
    ensures p.path == [100] && p.kind.DirectoryFile? && CpioFilter.WellFormed(Sample(t))
  {
    hide HeaderReadable, SampleHeader, DataSize, CutAtNul, NumericField;
    SampleReadBack(t);
    SampleWellFormed(t);
    p := PlanFor(SampleHeader(t), [100, 0], mappings).value;
  }

  /** A directory with data. */
  lemma {:induction false} DirectoryWithData(fs: Fs)
    requires !fs.IsLink([100])
    ensures EntriesFrom(CpioFilter.Archive([Sample(4)]), 0) == Some([Sample(4)])
    ensures InstallFrom(State(fs, [], false), CpioFilter.Archive([Sample(4)]), 0, None)
         == Went(3, State(fs.Place([100], Directory), [], false))
  {
    hide HeaderReadable, SampleHeader, InstallFrom, EntriesFrom, PlanFor, CpioFilter.Archive;
    var p := SamplePlan(4, None);
    LosesPlace(State(fs, [], false), CpioFilter.Archive([Sample(4)]), Sample(4), None, p);
  }

  /** A regular file with data that a mapping turns into a directory. */
  lemma {:induction false} MappedToDirectory(fs: Fs, mappings: Mappings)
    requires mappings == Some(map[[100] := Mapping(None, Some(0x4000))]) && !fs.IsLink([100])
    ensures HeaderReadable(SampleHeader(8)) && NumericField(SampleHeader(8), 1) == Some(0x8000)
    ensures EntriesFrom(CpioFilter.Archive([Sample(8)]), 0) == Some([Sample(8)])
    ensures InstallFrom(State(fs, [], false), CpioFilter.Archive([Sample(8)]), 0, mappings)
         == Went(3, State(fs.Place([100], Directory), [], false))
  {
    hide HeaderReadable, SampleHeader, InstallFrom, EntriesFrom, PlanFor, CpioFilter.Archive, NumericField;
    SampleReadBack(8);
    var p := SamplePlan(8, mappings);
    LosesPlace(State(fs, [], false), CpioFilter.Archive([Sample(8)]), Sample(8), mappings, p);
  }
}
