/** The slots of the groups, counted: when no store can leave an array, whatever the file system does. */
module LinkSlots {
  import opened Words
  import opened FileTree
  import opened HardLinks
  import opened LinkRuns

  /** How many slots hold a name. */
  function Taken(files: seq<Option<PathName>>): (n: nat)
    ensures n <= |files|
  {
    if files == [] then 0 else (if files[0].Some? then 1 else 0) + Taken(files[1..])
  }

  lemma {:induction false} TakenAll(files: seq<Option<PathName>>)
    requires forall k :: 0 <= k < |files| ==> files[k].Some?
    ensures Taken(files) == |files|
  {
    if files != [] {
      TakenAll(files[1..]);
    }
  }

  lemma {:induction false} TakenNone(files: seq<Option<PathName>>)
    requires forall k :: 0 <= k < |files| ==> files[k].None?
    ensures Taken(files) == 0
  {
    if files != [] {
      TakenNone(files[1..]);
    }
  }

  lemma {:induction false} TakenUpdate(files: seq<Option<PathName>>, i: nat, v: Option<PathName>)
    requires i < |files|
    ensures Taken(files[i := v]) == Taken(files) - (if files[i].Some? then 1 else 0) + (if v.Some? then 1 else 0)
  {
    if i == 0 {
      assert files[i := v][1..] == files[1..];
    } else {
      assert files[i := v][1..] == files[1..][i - 1 := v];
      TakenUpdate(files[1..], i - 1, v);
    }
  }

  /** Linking, whether it succeeds or not, takes no slot. */
  lemma {:induction false} CreateLinksTakes(fs: Fs, li: HardLink, i: nat)
    requires LinkShape(li) && i <= li.nlink
    ensures
      var r := CreateLinks(fs, li, i);
      r.Some? ==> r.value.li.key == li.key && r.value.li.nlink == li.nlink && Taken(r.value.li.files) <= Taken(li.files)
    decreases li.nlink - i
  {
    hide Fs.Crosses, Fs.Grounded, Taken;
    if i < li.nlink && (i == li.createdPath || li.files[i].None?) {
      CreateLinksTakes(fs, li, i + 1);
    } else if i < li.nlink {
      var c, p := li.files[li.createdPath].value, li.files[i].value;
      if fs.Unlink(p).Linkable(c, p) {
        TakenUpdate(li.files, i, None);
        CreateLinksTakes(fs.Unlink(p).Link(c, p),
          li.(files := li.files[i := None], linksLeft := li.linksLeft - 1), i + 1);
      }
    }
  }

  /** A record takes no more slots than its group has entries, of as many as the first of them announced. */
  ghost predicate Backed(xs: seq<Item>, li: HardLink) {
    var g := Group(xs, li.key);
    g != [] && li.nlink == g[0].nlink && Taken(li.files) <= |g|
  }

  ghost predicate Counted(xs: seq<Item>, links: seq<HardLink>)
  {
    && Shapes(links)
    && (forall k :: 0 <= k < |links| ==> Backed(xs, links[k]))
    && (forall key: Key :: Group(xs, key) != [] ==> FindLink(links, key) < |links|)
  }

  /** No group has more entries than the first of them announced links. */
  ghost predicate SlotsEnough(xs: seq<Item>) {
    forall key: Key :: Group(xs, key) != [] ==> |Group(xs, key)| <= Group(xs, key)[0].nlink
  }

  /** The groups fit their slots, no name is empty, and no symbolic link has 2^64 - 1 bytes. */
  ghost predicate Sound(xs: seq<Item>) {
    SlotsEnough(xs) && forall i :: 0 <= i < |xs| ==> xs[i].path != [] && !WrapsSize(xs[i])
  }

  lemma {:induction false} SlotsEnoughPrefix(xs: seq<Item>, x: Item)
    requires SlotsEnough(xs + [x])
    ensures SlotsEnough(xs)
  {
    hide Group;
    forall key: Key | Group(xs, key) != []
      ensures |Group(xs, key)| <= Group(xs, key)[0].nlink
    {
      GroupAppend(xs, x, key);
      assert Group(xs + [x], key)[0] == Group(xs, key)[0];
    }
  }

  lemma {:induction false} BackedGrows(xs: seq<Item>, x: Item, li: HardLink)
    requires Backed(xs, li)
    ensures Backed(xs + [x], li)
  {
    hide Group, Taken;
    GroupAppend(xs, x, li.key);
  }

  lemma {:induction false} CountedGrows(xs: seq<Item>, x: Item, links: seq<HardLink>)
    requires Counted(xs, links) && !Multi(x)
    ensures Counted(xs + [x], links)
  {
    hide Group, Backed, FindLink;
    forall k | 0 <= k < |links|
      ensures Backed(xs + [x], links[k])
    {
      BackedGrows(xs, x, links[k]);
    }
    forall key: Key | Group(xs + [x], key) != []
      ensures FindLink(links, key) < |links|
    {
      GroupAppend(xs, x, key);
    }
  }

  /** A group with enough slots has one for the next entry, and the list stays counted. */
  lemma {:induction false} EnrolledCounted(xs: seq<Item>, x: Item, links: seq<HardLink>)
    requires Multi(x) && Counted(xs, links) && SlotsEnough(xs + [x])
    ensures
      var e := Enrolled(links, x);
      e.Slotted? && Counted(xs + [x], e.links) && e.links[e.at].key == x.key
  {
    hide Group, Taken, Backed;
    GroupAppend(xs, x, x.key);
    var i := FindLink(links, x.key);
    var links' := if i < |links| then links else [NewLink(x)] + links;
    var at := if i < |links| then i else 0;
    var li := links'[at];
    assert li.key == x.key;
    RecordHasRoom(xs, x, links, li);
    var slot := FreeSlot(li.files, 0);
    var stored := li.(files := li.files[slot := Some(x.path)]);
    TakenUpdate(li.files, slot, Some(x.path));
    var e := Enrolled(links, x);
    assert e.links == links'[at := stored];
    forall k | 0 <= k < |e.links|
      ensures Backed(xs + [x], e.links[k])
    {
      if k == at {
        StoredBacked(xs, x, li, stored);
      } else {
        BackedGrows(xs, x, if i < |links| then links[k] else links[k - 1]);
      }
    }
    forall key: Key | Group(xs + [x], key) != []
      ensures FindLink(e.links, key) < |e.links|
    {
      GroupAppend(xs, x, key);
      StillFound(links, links', e.links, at, key);
    }
  }

  /** The record that an entry joins, or the one made for it, has a free slot. */
  lemma {:induction false} RecordHasRoom(xs: seq<Item>, x: Item, links: seq<HardLink>, li: HardLink)
    requires Multi(x) && Counted(xs, links) && SlotsEnough(xs + [x])
    requires
      var i := FindLink(links, x.key);
      li == if i < |links| then links[i] else NewLink(x)
    ensures li.key == x.key && |li.files| == li.nlink && FreeSlot(li.files, 0) < li.nlink
    ensures Taken(li.files) <= |Group(xs, x.key)| && li.nlink == Group(xs + [x], x.key)[0].nlink
  {
    hide Group, Taken;
    var i, g := FindLink(links, x.key), Group(xs, x.key);
    GroupAppend(xs, x, x.key);
    if i == |links| {
      assert g == [];
      TakenNone(li.files);
    } else {
      assert Backed(xs, li);
    }
    if FreeSlot(li.files, 0) == |li.files| {
      TakenAll(li.files);
    }
  }

  lemma {:induction false} StoredBacked(xs: seq<Item>, x: Item, li: HardLink, stored: HardLink)
    requires Multi(x) && li.key == x.key == stored.key && stored.nlink == li.nlink == Group(xs + [x], x.key)[0].nlink
    requires Taken(stored.files) <= |Group(xs, x.key)| + 1
    ensures Backed(xs + [x], stored)
  {
    hide Group, Taken;
    GroupAppend(xs, x, x.key);
  }

  lemma {:induction false} StillFound(links: seq<HardLink>, links': seq<HardLink>, after: seq<HardLink>, at: nat,
                                      key: Key)
    requires |after| == |links'| && at < |links'| && forall k :: 0 <= k < |links'| ==> after[k].key == links'[k].key
    requires
      var i := FindLink(links, key);
      || (i < |links| && links' == links)
      || (|links'| == |links| + 1 && links'[1..] == links && (i < |links| || links'[0].key == key))
    ensures FindLink(after, key) < |after|
  {
    hide FindLink;
    var i := FindLink(links, key);
    if links' == links {
      assert after[i].key == key;
    } else if links'[0].key == key {
      assert after[0].key == key;
    } else {
      assert links'[i + 1] == links'[1..][i] && after[i + 1].key == key;
    }
  }

  /** Replacing a record by one with the same group and slots, of which no more are taken. */
  lemma {:induction false} CountedUpdate(xs: seq<Item>, links: seq<HardLink>, at: nat, li: HardLink)
    requires Counted(xs, links) && at < |links| && li.key == links[at].key && li.nlink == links[at].nlink
    requires Taken(li.files) <= Taken(links[at].files) && LinkShape(li)
    ensures Counted(xs, links[at := li])
  {
    hide Group, Taken, FindLink;
    assert Backed(xs, links[at]);
    forall key: Key | Group(xs, key) != []
      ensures FindLink(links[at := li], key) < |links|
    {
      FindLinkUpdated(links, at, li, key);
    }
  }

  /** One entry of such an archive finds a slot, whatever the file system does. */
  lemma {:induction false} StepCounted(xs: seq<Item>, x: Item, st: State)
    requires Counted(xs, st.links) && SlotsEnough(xs + [x]) && x.path != [] && !WrapsSize(x)
    ensures
      var r := InstallItem(st, x);
      r != Overrun && (GoesOn(r) ==> Counted(xs + [x], r.st.links))
  {
    hide Group, Taken, Enrolled, CreateLinks, Counted, Backed, SlotsEnough;
    assert Shapes(st.links) by {
      CountedShapes(xs, st.links);
    }
    if Multi(x) {
      EnrolledCounted(xs, x, st.links);
      var e := Enrolled(st.links, x);
      var li := e.links[e.at];
      if li.createdPath != -1 {
        CreateLinksTakes(st.fs, li, 0);
        var r := CreateLinks(st.fs, li, 0);
        if r.Some? {
          CountedUpdate(xs + [x], e.links, e.at, r.value.li);
        }
      } else if HasData(x) {
        FirstCounted(xs + [x], x, st.(links := e.links), e.at, e.slot);
      }
    } else {
      CountedGrows(xs, x, st.links);
      AloneLinks(st, x);
    }
  }

  lemma {:induction false} CountedShapes(xs: seq<Item>, links: seq<HardLink>)
    requires Counted(xs, links)
    ensures Shapes(links)
  {
  }

  lemma {:induction false} AloneLinks(st: State, x: Item)
    requires Shapes(st.links) && !Multi(x) && x.path != [] && !WrapsSize(x)
    ensures
      var r := InstallItem(st, x);
      r != Overrun && (r.Went? ==> r.st.links == st.links)
  {
  }

  lemma {:induction false} FirstCounted(xs: seq<Item>, x: Item, st: State, at: nat, slot: nat)
    requires Counted(xs, st.links) && at < |st.links| && slot < st.links[at].nlink && st.links[at].files[slot].Some?
    requires x.path != []
    ensures
      var r := InstallFirst(st, x, at, slot);
      r != Overrun && (GoesOn(r) ==> Counted(xs, r.st.links))
  {
    hide Group, Taken, CreateLinks, FindLink, Backed;
    var led := st.fs.MakeLeading(x.path, 1);
    if led.Some? {
      var created := if led.value.IsDir(x.path) then led.value else led.value.Create(x.path, Regular(x.data));
      var li := st.links[at].(createdPath := slot, linksLeft := st.links[at].linksLeft - 1);
      CreateLinksTakes(created, li, 0);
      var r := CreateLinks(created, li, 0);
      if r.Some? {
        CountedUpdate(xs, st.links, at, r.value.li);
      }
    }
  }

  /**
   * Whatever the file system and the paths are: if no group has more entries than it announced links, no name is empty
   * and no symbolic link has 2^64 - 1 bytes, no store ever leaves an array.
   */
  lemma {:induction false} NeverOverruns(st: State, xs: seq<Item>)
    requires st.links == [] && Sound(xs)
    ensures InstallAll(st, xs) != Overrun && Install(st, xs) != Overrun
    ensures GoesOn(InstallAll(st, xs)) ==> Counted(xs, InstallAll(st, xs).st.links)
    decreases |xs|
  {
    hide InstallItem, SlotsEnough, Counted, ClosingPass;
    if xs == [] {
      NothingCounted();
    } else {
      var before, x := xs[..|xs| - 1], xs[|xs| - 1];
      assert before + [x] == xs;
      SlotsEnoughPrefix(before, x);
      NeverOverruns(st, before);
      if GoesOn(InstallAll(st, before)) {
        StepCounted(before, x, InstallAll(st, before).st);
      }
    }
  }

  lemma {:induction false} NothingCounted()
    ensures Counted([], [])
  {
  }
}
