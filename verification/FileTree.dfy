/** The file system of the installer: names that may share nodes, and directories, which unlink and link refuse. */
module FileTree {
  import opened Words

  type PathName = seq<byte>

  const SLASH: byte := 47

  datatype Node = Regular(data: seq<byte>) | Directory | Symlink(target: seq<byte>) | Fifo | Device(rdev: (int, int))

  /** `q` is a directory on the way to `path`. */
  predicate IsLeading(q: PathName, path: PathName) {
    1 <= |q| < |path| && path[..|q|] == q && path[|q|] == SLASH
  }

  // ---------- spellings ----------

  const DOT: byte := 46

  function FirstSlash(path: PathName): (k: nat)
    ensures k <= |path|
  {
    if path == [] || path[0] == SLASH then 0 else 1 + FirstSlash(path[1..])
  }

  /** The components of a path that count. */
  function Parts(path: PathName): (ps: seq<PathName>)
    decreases |path|
  {
    if path == [] then []
    else
      var k := FirstSlash(path);
      var rest := if k == |path| then [] else Parts(path[k + 1..]);
      if path[..k] == [] || path[..k] == [DOT] then rest else [path[..k]] + rest
  }

  lemma {:induction false} FirstSlashIs(path: PathName, k: nat)
    requires k <= |path| && SLASH !in path[..k] && (k < |path| ==> path[k] == SLASH)
    ensures FirstSlash(path) == k
  {
    if k > 0 {
      assert path[0] == path[..k][0];
      assert path[1..][..k - 1] == path[..k][1..];
      FirstSlashIs(path[1..], k - 1);
    }
  }

  /** A component counts unless it is empty or a single dot. */
  lemma {:induction false} PartsOfOne(name: PathName)
    requires 47 !in name
    ensures Parts(name) == if name == [] || name == [46] then [] else [name]
  {
    assert name[..|name|] == name;
    FirstSlashIs(name, |name|);
  }

  /** A slash separates components. */
  lemma {:induction false} PartsJoined(p: PathName, q: PathName)
    ensures Parts(p + [47] + q) == Parts(p) + Parts(q)
    decreases |p|
  {
    var k, path := FirstSlash(p), p + [47] + q;
    SlashBefore(p);
    assert path[..k] == p[..k];
    FirstSlashIs(path, k);
    if k == |p| {
      assert path[k + 1..] == q;
    } else {
      assert path[k + 1..] == p[k + 1..] + [47] + q;
      PartsJoined(p[k + 1..], q);
    }
  }

  lemma {:induction false} SlashBefore(p: PathName)
    ensures SLASH !in p[..FirstSlash(p)] && (FirstSlash(p) < |p| ==> p[FirstSlash(p)] == SLASH)
  {
    if p != [] && p[0] != SLASH {
      SlashBefore(p[1..]);
      var k := FirstSlash(p);
      assert p[..k] == [p[0]] + p[1..][..k - 1];
    }
  }

  predicate Absolute(path: PathName) {
    path != [] && path[0] == SLASH
  }

  predicate Climbs(path: PathName) {
    [DOT, DOT] in Parts(path)
  }

  /** Two paths that may be spellings of one file. */
  predicate MayAlias(p: PathName, q: PathName) {
    Climbs(p) || Climbs(q) || Absolute(p) != Absolute(q) || Parts(p) == Parts(q)
  }

  /** A path that climbs may lead anywhere, and an absolute one to wherever a relative one does. */
  lemma {:induction false} AnySpelling(p: PathName, q: PathName, r: PathName)
    ensures MayAlias(p + [47, 46, 46, 47] + q, r) && MayAlias(r, p + [47, 46, 46, 47] + q)
    ensures r != [] && r[0] != 47 ==> MayAlias(r, [47] + q) && MayAlias([47] + q, r)
  {
    hide Parts;
    assert p + [47, 46, 46, 47] + q == p + [47] + ([46, 46] + [47] + q);
    PartsJoined(p, [46, 46] + [47] + q);
    PartsJoined([46, 46], q);
    PartsOfOne([46, 46]);
    assert [46, 46] in [[46, 46]];
  }

  /** Doubled slashes, single dots and a slash at the end make no difference. */
  lemma {:induction false} SameSpelling(p: PathName, q: PathName)
    requires p != []
    ensures MayAlias(p + [47] + q, p + [47, 47] + q) && MayAlias(p + [47] + q, p + [47, 46, 47] + q)
    ensures MayAlias(p, p + [47])
  {
    assert p + [47, 47] + q == p + [47] + ([] + [47] + q);
    assert p + [47, 46, 47] + q == p + [47] + ([46] + [47] + q);
    assert p + [47] == p + [47] + [];
    PartsJoined(p, q);
    PartsJoined(p, [] + [47] + q);
    PartsJoined([], q);
    PartsJoined(p, [46] + [47] + q);
    PartsJoined([46], q);
    PartsJoined(p, []);
    PartsOfOne([46]);
    PartsOfOne([]);
  }

  // ---------- names and nodes ----------

  /** Names refer to nodes, so that two names may share one. */
  datatype Fs = Fs(names: map<PathName, nat>, nodes: seq<Node>) {

    ghost predicate Valid() {
      forall p :: p in names ==> names[p] < |nodes|
    }

    predicate Exists(path: PathName) {
      path in names && names[path] < |nodes|
    }

    function NodeOf(path: PathName): (n: Node)
      requires Exists(path)
    {
      nodes[names[path]]
    }

    predicate IsDir(path: PathName) {
      Exists(path) && NodeOf(path).Directory?
    }

    predicate IsLink(path: PathName) {
      Exists(path) && NodeOf(path).Symlink?
    }

    /** All directories on the way to `path` are there. */
    predicate Grounded(path: PathName) {
      path != [] && forall i :: 1 <= i < |path| && path[i] == SLASH ==> IsDir(path[..i])
    }

    /** The way to `path` goes through a symbolic link. */
    predicate Crosses(path: PathName) {
      exists i :: 1 <= i < |path| && path[i] == SLASH && IsLink(path[..i])
    }

    /** A new node takes the name, from which whatever was there has been unlinked. */
    function Create(path: PathName, node: Node): (fs: Fs)
    {
      Fs(names[path := |nodes|], nodes + [node])
    }

    /** As Create, except that an equal node is left alone. */
    function Place(path: PathName, node: Node): (fs: Fs)
    {
      if Exists(path) && NodeOf(path) == node then this else Create(path, node)
    }

    function Unlink(path: PathName): (fs: Fs)
    {
      Fs(map p | p in names && p != path :: names[p], nodes)
    }

    /** link(2) on a name that is free: the new name shares the node of the old one. */
    function Link(old': PathName, path: PathName): (fs: Fs)
      requires old' in names
    {
      Fs(names[path := names[old']], nodes)
    }

    /** When link(2) succeeds: the old name is there and no directory, and so is the place for the new one. */
    predicate Linkable(old': PathName, path: PathName) {
      old' in names && !IsDir(old') && Grounded(path)
    }

    /** createDirectory; None where a symbolic link stands in the place of the directory. */
    function MakeDir(path: PathName): (r: Option<Fs>)
    {
      if IsLink(path) then None else Some(Place(path, Directory))
    }

    /** checkDirectory: the directories on the way to `path`, from the one that ends at or behind `i` on. */
    function MakeLeading(path: PathName, i: nat): (r: Option<Fs>)
      requires i <= |path|
      decreases |path| - i
    {
      if i == |path| then Some(this)
      else if path[i] != SLASH then MakeLeading(path, i + 1)
      else
        match MakeDir(path[..i])
        case None => None
        case Some(fs) => fs.MakeLeading(path, i + 1)
    }
  }

  /** A path crosses the symbolic links that stand where a directory on its way should. */
  lemma {:induction false} CrossesExactly(fs: Fs, path: PathName)
    ensures fs.Crosses(path) <==> exists q :: IsLeading(q, path) && fs.IsLink(q)
  {
    forall i | 1 <= i < |path| && path[i] == SLASH && fs.IsLink(path[..i])
      ensures IsLeading(path[..i], path)
    {
    }
    if q :| IsLeading(q, path) && fs.IsLink(q) {
      assert path[..|q|] == q;
    }
  }

  // ---------- what a change leaves alone ----------

  /** `p` still names what it named, and no node has changed. */
  ghost predicate Keeps(fs: Fs, fs': Fs, p: PathName)
  {
    && (p in fs.names ==> p in fs'.names && fs'.names[p] == fs.names[p])
    && |fs.nodes| <= |fs'.nodes| && fs'.nodes[..|fs.nodes|] == fs.nodes
  }

  /** `p` is a name in both or in neither, and refers to the same node with the same content. */
  ghost predicate Untouched(fs: Fs, fs': Fs, p: PathName)
  {
    Keeps(fs, fs', p) && (p in fs'.names ==> p in fs.names)
  }

  lemma {:induction false} UntouchedItself(fs: Fs, p: PathName)
    ensures Untouched(fs, fs, p)
  {
    assert fs.nodes[..|fs.nodes|] == fs.nodes;
  }

  lemma {:induction false} UntouchedTransitive(a: Fs, b: Fs, c: Fs, p: PathName)
    requires Untouched(a, b, p) && Untouched(b, c, p)
    ensures Untouched(a, c, p)
  {
    assert c.nodes[..|a.nodes|] == c.nodes[..|b.nodes|][..|a.nodes|];
  }

  /** An untouched name refers to a node of the same kind and content. */
  lemma {:induction false} UntouchedNode(fs: Fs, fs': Fs, p: PathName)
    requires Untouched(fs, fs', p) && fs.Valid()
    ensures fs.Exists(p) <==> p in fs'.names
    ensures fs.Exists(p) ==> fs'.Exists(p) && fs'.names[p] == fs.names[p] && fs'.NodeOf(p) == fs.NodeOf(p)
    ensures fs'.IsDir(p) <==> fs.IsDir(p)
    ensures fs'.IsLink(p) <==> fs.IsLink(p)
  {
    if p in fs.names {
      assert fs'.nodes[fs.names[p]] == fs'.nodes[..|fs.nodes|][fs.names[p]];
    }
  }

  /** Creating, placing and unlinking touch one name. */
  lemma {:induction false} OthersUntouched(fs: Fs, path: PathName, node: Node, p: PathName)
    requires p != path
    ensures Untouched(fs, fs.Create(path, node), p) && Untouched(fs, fs.Place(path, node), p)
    ensures Untouched(fs, fs.Unlink(path), p)
  {
    assert (fs.nodes + [node])[..|fs.nodes|] == fs.nodes;
    UntouchedItself(fs, p);
  }

  lemma {:induction false} Created(fs: Fs, path: PathName, node: Node)
    ensures fs.Create(path, node).Exists(path) && fs.Create(path, node).NodeOf(path) == node
    ensures fs.Place(path, node).Exists(path) && fs.Place(path, node).NodeOf(path) == node
    ensures fs.Valid() ==> fs.Create(path, node).Valid() && fs.Place(path, node).Valid() && fs.Unlink(path).Valid()
  {
  }

  // ---------- leading directories ----------

  /** The directories that were missing on the way have been made, and nothing else has changed. */
  ghost predicate Led(fs: Fs, fs': Fs, path: PathName, i: nat)
  {
    && (fs.Valid() ==> fs'.Valid())
    && forall p :: if IsLeading(p, path) && i <= |p| && !fs.IsDir(p) then fs'.IsDir(p) else Untouched(fs, fs', p)
  }

  /** checkDirectory does just that, unless a symbolic link stands in the way. */
  lemma {:induction false} LeadingMade(fs: Fs, path: PathName, i: nat)
    requires 1 <= i <= |path| && fs.Valid()
    ensures
      var r := fs.MakeLeading(path, i);
      && (r.Some? ==> Led(fs, r.value, path, i))
      && ((forall q :: IsLeading(q, path) && i <= |q| ==> !fs.IsLink(q)) ==> r.Some?)
    decreases |path| - i
  {
    hide Untouched;
    if i == |path| {
      forall p
        ensures Untouched(fs, fs, p)
      {
        UntouchedItself(fs, p);
      }
    } else if path[i] != SLASH {
      LeadingMade(fs, path, i + 1);
    } else {
      var q := path[..i];
      assert IsLeading(q, path);
      if !fs.IsLink(q) {
        Created(fs, q, Directory);
        var fs1 := fs.Place(q, Directory);
        LeadingMade(fs1, path, i + 1);
        LeadingStep(fs, path, i);
      }
    }
  }

  lemma {:induction false} LeadingStep(fs: Fs, path: PathName, i: nat)
    requires 1 <= i < |path| && path[i] == SLASH && fs.Valid() && !fs.IsLink(path[..i])
    requires fs.Place(path[..i], Directory).Valid()
    requires
      var fs1 := fs.Place(path[..i], Directory);
      var r := fs1.MakeLeading(path, i + 1);
      && (r.Some? ==> Led(fs1, r.value, path, i + 1))
      && ((forall q :: IsLeading(q, path) && i + 1 <= |q| ==> !fs1.IsLink(q)) ==> r.Some?)
    ensures
      var r := fs.Place(path[..i], Directory).MakeLeading(path, i + 1);
      && (r.Some? ==> Led(fs, r.value, path, i))
      && ((forall q :: IsLeading(q, path) && i <= |q| ==> !fs.IsLink(q)) ==> r.Some?)
  {
    hide Untouched;
    var q := path[..i];
    var fs1 := fs.Place(q, Directory);
    var r := fs1.MakeLeading(path, i + 1);
    Created(fs, q, Directory);
    forall p | p != q
      ensures Untouched(fs, fs1, p) && (fs1.IsDir(p) <==> fs.IsDir(p)) && (fs1.IsLink(p) <==> fs.IsLink(p))
    {
      OthersUntouched(fs, q, Directory, p);
      UntouchedNode(fs, fs1, p);
    }
    if r.Some? {
      forall p
        ensures if IsLeading(p, path) && i <= |p| && !fs.IsDir(p) then r.value.IsDir(p) else Untouched(fs, r.value, p)
      {
        if p == q {
          UntouchedNode(fs1, r.value, p);
          if fs.IsDir(q) {
            assert fs1 == fs;
          }
        } else if !(IsLeading(p, path) && i <= |p| && !fs.IsDir(p)) {
          UntouchedTransitive(fs, fs1, r.value, p);
        }
      }
    }
  }
}
