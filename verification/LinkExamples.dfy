/** Archives on which the installer does what its users would not expect, each from an empty file system. */
module LinkExamples {
  import opened Words
  import opened FileTree
  import opened HardLinks

  const EMPTY := State(Fs(map[], []), [], false)

  /** An entry of a group of two links. */
  function Name(key: Key, path: PathName, data: seq<byte>): (x: Item)
    ensures Multi(x) && (HasData(x) <==> data != [])
  {
    Item(path, RegularFile, 2, key, data, 0)
  }

  function Dir(path: PathName): (x: Item) {
    Item(path, DirectoryFile, 1, (0, 0, 0), [], 0)
  }

  function File(path: PathName, data: seq<byte>): (x: Item) {
    Item(path, RegularFile, 1, (0, 0, 0), data, 0)
  }

  /** The record of a group of two links whose file is created, with its other slot free or taken. */
  function Two(key: Key, left: int, c: PathName, other: Option<PathName>): (li: HardLink)
    ensures LinkShape(li)
  {
    HardLink(key, 2, left, 0, [Some(c), other])
  }

  /** One more entry behind a run that goes on. */
  lemma {:induction false} OneMore(st: State, xs: seq<Item>, st': State, x: Item)
    requires Shapes(st.links) && InstallAll(st, xs) == Went(0, st')
    ensures InstallAll(st, xs + [x]) == InstallItem(st', x)
  {
    hide InstallItem;
    assert (xs + [x])[..|xs|] == xs;
  }

  lemma {:induction false} NoEntries(st: State)
    requires Shapes(st.links)
    ensures InstallAll(st, []) == Went(0, st)
  {
  }

  /** Paths of one character have nothing on their way. */
  lemma {:induction false} Short(fs: Fs, p: PathName)
    requires |p| == 1
    ensures fs.Grounded(p) && !fs.Crosses(p) && fs.MakeLeading(p, 1) == Some(fs)
  {
  }

  /** Linking the one other name of such a group. */
  function LinkedTwo(fs: Fs, key: Key, left: int, c: PathName, p: PathName): (r: Linking)
  {
    if fs.IsDir(p) then Linking(CPIOERR_UNLINK_FAILED, fs, Two(key, left, c, Some(p)))
    else if c == p || c !in fs.names || fs.IsDir(c) then
      Linking(CPIOERR_LINK_FAILED, fs.Unlink(p), Two(key, left, c, Some(p)))
    else Linking(0, fs.Unlink(p).Link(c, p), Two(key, left - 1, c, None))
  }

  lemma {:induction false} LinkTwo(fs: Fs, key: Key, left: int, c: PathName, p: PathName)
    requires |p| == 1
    ensures CreateLinks(fs, Two(key, left, c, Some(p)), 0) == Some(LinkedTwo(fs, key, left, c, p))
    ensures CreateLinks(fs, Two(key, left, c, None), 0) == Some(Linking(0, fs, Two(key, left, c, None)))
  {
    hide Fs.Grounded, Fs.Crosses;
    Short(fs, p);
    var free := fs.Unlink(p);
    Short(free, p);
    var li := Two(key, left, c, Some(p));
    var li1 := Two(key, left - 1, c, None);
    assert li.(files := li.files[1 := None], linksLeft := left - 1) == li1;
    if c in free.names {
      LinksEnd(free.Link(c, p), li1);
    }
    assert CreateLinks(fs, li, 1) == Some(LinkedTwo(fs, key, left, c, p));
    LinksEnd(fs, Two(key, left, c, None));
    assert CreateLinks(fs, Two(key, left, c, None), 1) == Some(Linking(0, fs, Two(key, left, c, None)));
  }

  /** The data of a new group. */
  lemma {:induction false} First(st: State, key: Key, p: PathName, data: seq<byte>)
    requires Shapes(st.links) && FindLink(st.links, key) == |st.links| && |p| == 1 && data != [] && !st.fs.IsDir(p)
    ensures InstallItem(st, Name(key, p, data))
         == Went(0, State(st.fs.Create(p, Regular(data)), [Two(key, 1, p, None)] + st.links, st.failed))
  {
    hide CreateLinks;
    var x := Name(key, p, data);
    Short(st.fs, p);
    LinkTwo(st.fs.Create(p, Regular(data)), key, 1, p, p);
    var links := [NewLink(x)] + st.links;
    assert FreeSlot(links[0].files, 0) == 0;
    var e := Enrolled(st.links, x);
    assert e.links[0].(createdPath := 0, linksLeft := 1) == Two(key, 1, p, None);
    assert e.links[0 := Two(key, 1, p, None)] == [Two(key, 1, p, None)] + st.links;
  }

  /** A further name of a group with a free slot. */
  lemma {:induction false} Next(st: State, at: nat, key: Key, left: int, c: PathName, p: PathName)
    requires Shapes(st.links) && FindLink(st.links, key) == at < |st.links|
      && st.links[at] == Two(key, left, c, None) && |p| == 1
    ensures
      var r := LinkedTwo(st.fs, key, left, c, p);
      InstallItem(st, Name(key, p, [])) == Went(0, State(r.fs, st.links[at := r.li], st.failed || r.rc != 0))
  {
    hide CreateLinks;
    LinkTwo(st.fs, key, left, c, p);
    assert FreeSlot(st.links[at].files, 0) == 1;
    var e := Enrolled(st.links, Name(key, p, []));
    assert e.links[at].files == [Some(c), Some(p)];
    assert e.links[at] == Two(key, left, c, Some(p));
  }

  /** A further name of a group without one. */
  lemma {:induction false} NoSlotLeft(st: State, key: Key, left: int, c: PathName, other: PathName, p: PathName)
    requires Shapes(st.links) && FindLink(st.links, key) < |st.links|
    requires st.links[FindLink(st.links, key)] == Two(key, left, c, Some(other))
    ensures InstallItem(st, Name(key, p, [])) == Overrun
  {
    assert FreeSlot([Some(c), Some(other)], 0) == 2;
  }

  lemma {:induction false} DirStep(st: State, p: PathName)
    requires Shapes(st.links) && |p| == 1 && !st.fs.IsLink(p)
    ensures InstallItem(st, Dir(p)) == Went(0, st.(fs := st.fs.Place(p, Directory)))
  {
    Short(st.fs, p);
  }

  /** The data of a group comes first. */
  lemma {:induction false} Started(key: Key, p: PathName, data: seq<byte>) returns (st: State)
    requires |p| == 1 && data != []
    ensures InstallAll(EMPTY, [Name(key, p, data)]) == Went(0, st)
    ensures st == State(Fs(map[p := 0], [Regular(data)]), [Two(key, 1, p, None)], false)
  {
    hide InstallAll, InstallItem, FindLink;
    var x := Name(key, p, data);
    NoEntries(EMPTY);
    FindNone(key);
    First(EMPTY, key, p, data);
    st := State(Fs(map[p := 0], [Regular(data)]), [Two(key, 1, p, None)], false);
    assert EMPTY.fs.Create(p, Regular(data)) == st.fs;
    assert [Two(key, 1, p, None)] + [] == [Two(key, 1, p, None)];
    OneMore(EMPTY, [], EMPTY, x);
    assert [] + [x] == [x];
  }

  /** A group's file, a directory in its place, and two more names. */
  lemma {:induction false} CreatedThenDirectory(key: Key, p: PathName, q: PathName, data: seq<byte>) returns (st: State)
    requires |p| == |q| == 1 && p != q && data != []
    ensures InstallAll(EMPTY, [Name(key, p, data), Dir(p), Name(key, q, [])]) == Went(0, st)
    ensures st.links == [Two(key, 1, p, Some(q))] && st.fs.IsDir(p) && q !in st.fs.names && st.fs.Valid()
  {
    hide InstallAll, InstallItem;
    var x, y, z := Name(key, p, data), Dir(p), Name(key, q, []);
    var st1 := Started(key, p, data);
    DirStep(st1, p);
    var st2 := st1.(fs := st1.fs.Place(p, Directory));
    OneMore(EMPTY, [x], st1, y);
    assert [x] + [y] == [x, y];
    assert st2.fs.IsDir(p) && !st2.fs.IsDir(q);
    Next(st2, 0, key, 1, p, q);
    st := State(st2.fs.Unlink(q), [Two(key, 1, p, Some(q))], true);
    OneMore(EMPTY, [x, y], st2, z);
    assert [x, y] + [z] == [x, y, z];
  }

  /** With one name more, the slots of the group are overrun: it has its data, and repeats no path. */
  lemma {:induction false} DirectoryOverrun(key: Key, p: PathName, q: PathName, r: PathName, data: seq<byte>)
    requires |p| == |q| == 1 && p != q && data != []
    ensures Install(EMPTY, [Name(key, p, data), Dir(p), Name(key, q, []), Name(key, r, [])]) == Overrun
  {
    hide InstallAll, InstallItem;
    var xs := [Name(key, p, data), Dir(p), Name(key, q, [])];
    var st := CreatedThenDirectory(key, p, q, data);
    OneMore(EMPTY, xs, st, Name(key, r, []));
    assert xs + [Name(key, r, [])] == [Name(key, p, data), Dir(p), Name(key, q, []), Name(key, r, [])];
    NoSlotLeft(st, key, 1, p, q, r);
  }

  /** Without it, the closing pass cannot link the name. */
  lemma {:induction false} DirectoryCloses(key: Key, p: PathName, q: PathName, data: seq<byte>)
    requires |p| == |q| == 1 && p != q && data != []
    ensures
      var r := Install(EMPTY, [Name(key, p, data), Dir(p), Name(key, q, [])]);
      r.Went? && r.rc == 16 - 0x8000_0000
  {
    hide InstallAll, InstallItem;
    var st := CreatedThenDirectory(key, p, q, data);
    LinkTwo(st.fs, key, 1, p, q);
  }

  /** A plain file cannot take the place of a directory. */
  lemma {:induction false} FileOverDirectory(p: PathName, data: seq<byte>)
    requires |p| == 1
    ensures
      var r := Install(EMPTY, [Dir(p), File(p, data)]);
      r.Went? && r.rc == 9 - 0x8000_0000
  {
    hide InstallAll;
    NoEntries(EMPTY);
    DirStep(EMPTY, p);
    var st := EMPTY.(fs := EMPTY.fs.Place(p, Directory));
    OneMore(EMPTY, [], EMPTY, Dir(p));
    assert [] + [Dir(p)] == [Dir(p)];
    OneMore(EMPTY, [Dir(p)], st, File(p, data));
    assert [Dir(p)] + [File(p, data)] == [Dir(p), File(p, data)];
    Short(st.fs, p);
  }

  /** Two links, the data, its path again, another name: the slots are overrun although the data has come. */
  lemma {:induction false} RepeatOverrun(key: Key, p: PathName, q: PathName, data: seq<byte>)
    requires |p| == 1 && data != []
    ensures Install(EMPTY, [Name(key, p, data), Name(key, p, []), Name(key, q, [])]) == Overrun
  {
    hide InstallAll, InstallItem;
    var x, y, z := Name(key, p, data), Name(key, p, []), Name(key, q, []);
    var st1 := Started(key, p, data);
    Next(st1, 0, key, 1, p, p);
    var st2 := State(st1.fs.Unlink(p), [Two(key, 1, p, Some(p))], true);
    OneMore(EMPTY, [x], st1, y);
    assert [x] + [y] == [x, y];
    NoSlotLeft(st2, key, 1, p, p, q);
    OneMore(EMPTY, [x, y], st2, z);
    assert [x, y] + [z] == [x, y, z];
  }

  /** The record of a group of two links without data. */
  function Waiting(key: Key, p: PathName, other: Option<PathName>): (li: HardLink) {
    HardLink(key, 2, 2, -1, [Some(p), other])
  }

  lemma {:induction false} FirstWaits(key: Key, p: PathName)
    ensures InstallItem(EMPTY, Name(key, p, [])) == Went(0, EMPTY.(links := [Waiting(key, p, None)]))
  {
    var x := Name(key, p, []);
    assert FreeSlot(NewLink(x).files, 0) == 0;
    assert NewLink(x).files[0 := Some(p)] == [Some(p), None];
    assert ([NewLink(x)] + [])[0 := Waiting(key, p, None)] == [Waiting(key, p, None)];
  }

  lemma {:induction false} SecondWaits(key: Key, p: PathName, q: PathName)
    ensures InstallItem(EMPTY.(links := [Waiting(key, p, None)]), Name(key, q, []))
         == Went(0, EMPTY.(links := [Waiting(key, p, Some(q))]))
  {
    var li := Waiting(key, p, None);
    assert FreeSlot(li.files, 0) == 1;
    assert li.files[1 := Some(q)] == [Some(p), Some(q)];
    assert [li][0 := Waiting(key, p, Some(q))] == [Waiting(key, p, Some(q))];
  }

  /** Two links announced and three names without data: the third name has no slot. */
  lemma {:induction false} WaitingOverrun(key: Key, p: PathName, q: PathName, r: PathName)
    ensures Install(EMPTY, [Name(key, p, []), Name(key, q, []), Name(key, r, [])]) == Overrun
  {
    hide InstallAll, InstallItem;
    var x, y, z := Name(key, p, []), Name(key, q, []), Name(key, r, []);
    var st1, st2 := EMPTY.(links := [Waiting(key, p, None)]), EMPTY.(links := [Waiting(key, p, Some(q))]);
    NoEntries(EMPTY);
    OneMore(EMPTY, [], EMPTY, x);
    assert [] + [x] == [x];
    FirstWaits(key, p);
    OneMore(EMPTY, [x], st1, y);
    assert [x] + [y] == [x, y];
    SecondWaits(key, p, q);
    OneMore(EMPTY, [x, y], st2, z);
    assert [x, y] + [z] == [x, y, z];
    ThirdOverruns(key, p, q, r);
  }

  lemma {:induction false} ThirdOverruns(key: Key, p: PathName, q: PathName, r: PathName)
    ensures InstallItem(EMPTY.(links := [Waiting(key, p, Some(q))]), Name(key, r, [])) == Overrun
  {
    assert FreeSlot([Some(p), Some(q)], 0) == 2;
  }

  /** Two groups with one created path, which the second repeats. */
  lemma {:induction false} OneTakesFromTheOther(a: Key, b: Key, p: PathName, data: seq<byte>) returns (st: State)
    requires a != b && |p| == 1 && data != []
    ensures InstallAll(EMPTY, [Name(a, p, data), Name(b, p, data), Name(b, p, [])]) == Went(0, st)
    ensures st.links == [Two(b, 1, p, Some(p)), Two(a, 1, p, None)] && st.fs.names == map[]
  {
    hide InstallAll, InstallItem, FindLink;
    var x1, x2, x3 := Name(a, p, data), Name(b, p, data), Name(b, p, []);
    var st1 := Started(a, p, data);
    FindSecond(b, a, Two(a, 1, p, None));
    First(st1, b, p, data);
    var st2 := State(st1.fs.Create(p, Regular(data)), [Two(b, 1, p, None), Two(a, 1, p, None)], false);
    OneMore(EMPTY, [x1], st1, x2);
    assert [x1] + [x2] == [x1, x2];
    FindFront(b, Two(b, 1, p, None), Two(a, 1, p, None));
    Next(st2, 0, b, 1, p, p);
    st := State(st2.fs.Unlink(p), [Two(b, 1, p, Some(p)), Two(a, 1, p, None)], true);
    OneMore(EMPTY, [x1, x2], st2, x3);
    assert [x1, x2] + [x3] == [x1, x2, x3];
  }

  /** Two further names of the first group then overrun its slots. */
  lemma {:induction false} TwoGroupsOverrun(a: Key, b: Key, p: PathName, q: PathName, r: PathName, data: seq<byte>)
    requires a != b && |p| == |q| == 1 && p != q && data != []
    ensures
      var xs := [Name(a, p, data), Name(b, p, data), Name(b, p, []), Name(a, q, []), Name(a, r, [])];
      Install(EMPTY, xs) == Overrun
  {
    hide InstallAll, InstallItem, FindLink;
    var xs, x4, x5 := [Name(a, p, data), Name(b, p, data), Name(b, p, [])], Name(a, q, []), Name(a, r, []);
    var st3 := OneTakesFromTheOther(a, b, p, data);
    FindBehind(a, b, Two(b, 1, p, Some(p)), Two(a, 1, p, None));
    Next(st3, 1, a, 1, p, q);
    var st4 := State(st3.fs.Unlink(q), [Two(b, 1, p, Some(p)), Two(a, 1, p, Some(q))], true);
    OneMore(EMPTY, xs, st3, x4);
    FindBehind(a, b, Two(b, 1, p, Some(p)), Two(a, 1, p, Some(q)));
    NoSlotLeft(st4, a, 1, p, q, r);
    OneMore(EMPTY, xs + [x4], st4, x5);
    assert xs + [x4] + [x5] == [Name(a, p, data), Name(b, p, data), Name(b, p, []), x4, x5];
  }

  lemma {:induction false} FindNone(key: Key)
    ensures FindLink([], key) == 0
  {
  }

  lemma {:induction false} FindFront(key: Key, li: HardLink, other: HardLink)
    requires li.key == key
    ensures FindLink([li, other], key) == 0
  {
  }

  lemma {:induction false} FindSecond(key: Key, other: Key, li: HardLink)
    requires li.key == other != key
    ensures FindLink([li], key) == 1
  {
  }

  lemma {:induction false} FindBehind(key: Key, other: Key, li: HardLink, mine: HardLink)
    requires li.key == other != key && mine.key == key
    ensures FindLink([li, mine], key) == 1
  {
    assert [li, mine][1..] == [mine];
  }

  /** A name that comes before the directory on its way is not linked, and keeps its slot. */
  lemma {:induction false} NotLinkedYet(key: Key, c: PathName, p: PathName, data: seq<byte>) returns (st: State)
    requires |c| == 1 && data != [] && |p| == 3 && p[1] == SLASH
    ensures InstallAll(EMPTY, [Name(key, c, data), Name(key, p, [])]) == Went(0, st)
    ensures st == State(Fs(map[c := 0], [Regular(data)]), [Two(key, 1, c, Some(p))], true)
  {
    hide InstallAll, InstallItem, CreateLinks;
    var x, y := Name(key, c, data), Name(key, p, []);
    var st1 := Started(key, c, data);
    Ungrounded(st1.fs, key, c, p);
    NextUngrounded(st1, key, c, p);
    st := State(Fs(map[c := 0], [Regular(data)]), [Two(key, 1, c, Some(p))], true);
    assert st1.fs.Unlink(p).names == st.fs.names;
    OneMore(EMPTY, [x], st1, y);
    assert [x] + [y] == [x, y];
  }

  /** If its directory never comes, the closing pass cannot link it either. */
  lemma {:induction false} MissingDirectory(key: Key, c: PathName, p: PathName, data: seq<byte>)
    requires |c| == 1 && data != [] && |p| == 3 && p[1] == SLASH
    ensures
      var r := Install(EMPTY, [Name(key, c, data), Name(key, p, [])]);
      r.Went? && r.rc == 16 - 0x8000_0000
  {
    hide InstallAll, InstallItem, CreateLinks;
    var st := NotLinkedYet(key, c, p, data);
    Ungrounded(st.fs, key, c, p);
  }

  /** One more name then overruns the slots, although all paths are different and none is a directory. */
  lemma {:induction false} MissingDirectoryOverrun(key: Key, c: PathName, p: PathName, r: PathName, data: seq<byte>)
    requires |c| == 1 && data != [] && |p| == 3 && p[1] == SLASH
    ensures Install(EMPTY, [Name(key, c, data), Name(key, p, []), Name(key, r, [])]) == Overrun
  {
    hide InstallAll, InstallItem;
    var xs, z := [Name(key, c, data), Name(key, p, [])], Name(key, r, []);
    var st := NotLinkedYet(key, c, p, data);
    NoSlotLeft(st, key, 1, c, p, r);
    OneMore(EMPTY, xs, st, z);
    assert xs + [z] == [Name(key, c, data), Name(key, p, []), z];
  }

  lemma {:induction false} OneRecordCloses(st: State, li: HardLink, fs: Fs, li': HardLink)
    requires st.links == [li] && LinkShape(li) && li.linksLeft != 0
    requires CreateLinks(st.fs, li, 0) == Some(Linking(0, fs, li'))
    ensures Closed(st) == Went(0, st.(fs := fs))
  {
    hide CreateLinks;
    assert st.links[1..] == [];
    assert ClosingPass(fs, []) == Some((0, fs));
  }

  /** The directory has come: the name can be linked. */
  lemma {:induction false} LinksNow(fs: Fs, key: Key, c: PathName, p: PathName)
    requires |c| == 1 && |p| == 3 && p[1] == SLASH && p[2] != SLASH && p[..1] != c
    requires fs.IsDir(p[..1]) && c in fs.names && !fs.IsDir(c) && p !in fs.names
    ensures CreateLinks(fs, Two(key, 1, c, Some(p)), 0)
         == Some(Linking(0, fs.Unlink(p).Link(c, p), Two(key, 0, c, None)))
  {
    var free, li, li1 := fs.Unlink(p), Two(key, 1, c, Some(p)), Two(key, 0, c, None);
    assert free.names == fs.names;
    assert free.IsDir(p[..1]) && free.Grounded(p) && !fs.Crosses(p) && !fs.IsDir(p) && free.Linkable(c, p);
    assert li.(files := li.files[1 := None], linksLeft := 0) == li1;
    LinksEnd(free.Link(c, p), li1);
    assert CreateLinks(fs, li, 1) == Some(Linking(0, free.Link(c, p), li1));
  }

  /** If its directory comes before the trailer, the closing pass links it. */
  lemma {:induction false} LateDirectory(key: Key, c: PathName, p: PathName, data: seq<byte>)
    requires |c| == 1 && data != [] && |p| == 3 && p[1] == SLASH && p[2] != SLASH && p[..1] != c
    ensures
      var r := Install(EMPTY, [Name(key, c, data), Name(key, p, []), Dir(p[..1])]);
      && r.Went? && r.rc == 0 && c in r.st.fs.names && p in r.st.fs.names
      && r.st.fs.names[p] == r.st.fs.names[c]
  {
    hide InstallAll, InstallItem, CreateLinks, Closed;
    var xs, d := [Name(key, c, data), Name(key, p, [])], p[..1];
    var st := NotLinkedYet(key, c, p, data);
    DirStep(st, d);
    var fs := st.fs.Place(d, Directory);
    OneMore(EMPTY, xs, st, Dir(d));
    assert xs + [Dir(d)] == [Name(key, c, data), Name(key, p, []), Dir(d)];
    Created(st.fs, d, Directory);
    assert c in fs.names && fs.names[c] == 0 && fs.nodes[0] == Regular(data) && p !in fs.names;
    LinksNow(fs, key, c, p);
    OneRecordCloses(st.(fs := fs), Two(key, 1, c, Some(p)), fs.Unlink(p).Link(c, p), Two(key, 0, c, None));
  }

  lemma {:induction false} Ungrounded(fs: Fs, key: Key, c: PathName, p: PathName)
    requires |p| == 3 && p[1] == SLASH && |c| == 1
    requires forall q :: q in fs.names ==> |q| == 1 && !fs.IsDir(q) && !fs.IsLink(q)
    ensures CreateLinks(fs, Two(key, 1, c, Some(p)), 0)
         == Some(Linking(CPIOERR_LINK_FAILED, fs.Unlink(p), Two(key, 1, c, Some(p))))
  {
    var free := fs.Unlink(p);
    assert !free.IsDir(p[..1]) && !free.Grounded(p) && !fs.Crosses(p) && !fs.IsDir(p);
    assert CreateLinks(fs, Two(key, 1, c, Some(p)), 1)
        == Some(Linking(CPIOERR_LINK_FAILED, free, Two(key, 1, c, Some(p))));
  }

  lemma {:induction false} NextUngrounded(st: State, key: Key, c: PathName, p: PathName)
    requires st.links == [Two(key, 1, c, None)]
    requires CreateLinks(st.fs, Two(key, 1, c, Some(p)), 0)
          == Some(Linking(CPIOERR_LINK_FAILED, st.fs.Unlink(p), Two(key, 1, c, Some(p))))
    ensures InstallItem(st, Name(key, p, [])) == Went(0, State(st.fs.Unlink(p), [Two(key, 1, c, Some(p))], true))
  {
    hide CreateLinks;
    assert FreeSlot(st.links[0].files, 0) == 1;
    var e := Enrolled(st.links, Name(key, p, []));
    assert e.links[0].files == [Some(c), Some(p)];
    assert e.links[0] == Two(key, 1, c, Some(p));
  }
}
