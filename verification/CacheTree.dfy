// The verifier of an extracted cache: the directory tree must be exactly the manifest.
module CacheTree {
  import opened Bytes

  type Path = seq<string>

  /** What stands in a directory; names hold no separator. */
  datatype Node = File(content: seq<byte>) | Link | Dir(children: seq<Child>)

  datatype Child = Child(name: string, node: Node)

  datatype Entry = Entry(path: Path, size: nat, hash: string)

  /** How the verifier compares names and takes digests. */
  datatype Host = Host(fold: string -> string, digest: seq<byte> -> string)

  function KeyOf(h: Host, p: Path): Path {
    seq(|p|, i requires 0 <= i < |p| => h.fold(p[i]))
  }

  /** Two paths have one key exactly if name by name they compare alike. */
  lemma KeysMean(h: Host, p: Path, q: Path)
    ensures KeyOf(h, p) == KeyOf(h, q) <==> |p| == |q| && forall i | 0 <= i < |p| :: h.fold(p[i]) == h.fold(q[i])
  {
    var k, l := KeyOf(h, p), KeyOf(h, q);
    assert forall i | 0 <= i < |p| :: k[i] == h.fold(p[i]);
    assert forall i | 0 <= i < |q| :: l[i] == h.fold(q[i]);
  }

  // The manifest.

  function FilesOf(h: Host, entries: seq<Entry>): map<Path, Entry> {
    if entries == [] then map[]
    else
      var n := |entries| - 1;
      FilesOf(h, entries[..n])[KeyOf(h, entries[n].path) := entries[n]]
  }

  /** The keys of the proper ancestors of a path, the root excluded. */
  function ParentsOf(key: Path): set<Path> {
    set n | 0 < n < |key| :: key[..n]
  }

  function DirsOf(h: Host, entries: seq<Entry>): set<Path> {
    if entries == [] then {}
    else
      var n := |entries| - 1;
      DirsOf(h, entries[..n]) + ParentsOf(KeyOf(h, entries[n].path))
  }

  predicate IsDirOf(key: Path, dir: Path) {
    0 < |dir| < |key| && key[..|dir|] == dir
  }

  /** The manifest's directories are the proper ancestors of its files. */
  lemma {:induction false} DirsMean(h: Host, entries: seq<Entry>, dir: Path)
    ensures dir in DirsOf(h, entries) <==> exists i | 0 <= i < |entries| :: IsDirOf(KeyOf(h, entries[i].path), dir)
    decreases |entries|
  {
    hide KeyOf;
    if entries != [] {
      var n := |entries| - 1;
      var key := KeyOf(h, entries[n].path);
      DirsMean(h, entries[..n], dir);
      assert dir in ParentsOf(key) <==> IsDirOf(key, dir);
      if i :| 0 <= i < n && IsDirOf(KeyOf(h, entries[..n][i].path), dir) {
        assert IsDirOf(KeyOf(h, entries[i].path), dir);
      }
      if i :| 0 <= i < |entries| && IsDirOf(KeyOf(h, entries[i].path), dir) {
        assert i < n ==> entries[..n][i] == entries[i];
      }
    }
  }

  /** Where no two entries of the manifest have one key, each is what is expected there. */
  lemma {:induction false} FilesMean(h: Host, entries: seq<Entry>, i: nat)
    requires i < |entries|
    requires forall j, k | 0 <= j < k < |entries| :: KeyOf(h, entries[j].path) != KeyOf(h, entries[k].path)
    ensures KeyOf(h, entries[i].path) in FilesOf(h, entries)
    ensures FilesOf(h, entries)[KeyOf(h, entries[i].path)] == entries[i]
    decreases |entries|
  {
    hide KeyOf;
    var n := |entries| - 1;
    if i < n {
      assert forall j | 0 <= j < n :: entries[..n][j] == entries[j];
      FilesMean(h, entries[..n], i);
    }
  }

  // The tree, listed.

  datatype Found = Found(path: Path, node: Node)

  /** Everything below a directory, parents first. */
  function Below(path: Path, children: seq<Child>): seq<Found>
    decreases children
  {
    if children == [] then []
    else
      var c := children[0];
      [Found(path + [c.name], c.node)] + (if c.node.Dir? then Below(path + [c.name], c.node.children) else [])
      + Below(path, children[1..])
  }

  /** The entry is what the manifest says at its key. */
  predicate Fits(h: Host, files: map<Path, Entry>, dirs: set<Path>, f: Found) {
    var key := KeyOf(h, f.path);
    match f.node
    case Link => false
    case Dir(_) => key in dirs
    case File(content) => key in files && |content| == files[key].size && h.digest(content) == files[key].hash
  }

  function Keys(h: Host, fs: seq<Found>): set<Path> {
    set i | 0 <= i < |fs| :: KeyOf(h, fs[i].path)
  }

  function FileKeys(h: Host, fs: seq<Found>): set<Path> {
    set i | 0 <= i < |fs| && fs[i].node.File? :: KeyOf(h, fs[i].path)
  }

  function DirKeys(h: Host, fs: seq<Found>): set<Path> {
    set i | 0 <= i < |fs| && fs[i].node.Dir? :: KeyOf(h, fs[i].path)
  }

  predicate AllFit(h: Host, files: map<Path, Entry>, dirs: set<Path>, fs: seq<Found>) {
    forall i | 0 <= i < |fs| :: Fits(h, files, dirs, fs[i])
  }

  predicate Distinct(h: Host, fs: seq<Found>) {
    forall i, j | 0 <= i < j < |fs| :: KeyOf(h, fs[i].path) != KeyOf(h, fs[j].path)
  }

  /** The tree is exactly the manifest: nothing unfitting, nothing twice, nothing missing. */
  predicate Exact(h: Host, files: map<Path, Entry>, dirs: set<Path>, fs: seq<Found>) {
    AllFit(h, files, dirs, fs) && Distinct(h, fs) && FileKeys(h, fs) == files.Keys && DirKeys(h, fs) == dirs
  }

  // Counting.

  lemma DistinctNext(h: Host, fs: seq<Found>, f: Found)
    ensures Distinct(h, fs + [f]) <==> Distinct(h, fs) && KeyOf(h, f.path) !in Keys(h, fs)
  {
    hide KeyOf;
    var all, n := fs + [f], |fs|;
    assert forall i | 0 <= i < n :: all[i] == fs[i];
    assert all[n] == f;
  }

  lemma {:induction false} DistinctCounts(h: Host, fs: seq<Found>)
    ensures |Keys(h, fs)| <= |fs|
    ensures Distinct(h, fs) <==> |Keys(h, fs)| == |fs|
    decreases |fs|
  {
    if fs != [] {
      var n := |fs| - 1;
      assert fs == fs[..n] + [fs[n]];
      DistinctCounts(h, fs[..n]);
      hide KeyOf, Keys, Distinct;
      DistinctNext(h, fs[..n], fs[n]);
      KeysNext(h, fs[..n], fs[n]);
    }
  }

  lemma KeysNext(h: Host, fs: seq<Found>, f: Found)
    ensures Keys(h, fs + [f]) == Keys(h, fs) + {KeyOf(h, f.path)}
    ensures FileKeys(h, fs + [f]) == FileKeys(h, fs) + if f.node.File? then {KeyOf(h, f.path)} else {}
    ensures DirKeys(h, fs + [f]) == DirKeys(h, fs) + if f.node.Dir? then {KeyOf(h, f.path)} else {}
  {
    hide KeyOf;
    var all := fs + [f];
    assert forall i | 0 <= i < |fs| :: all[i] == fs[i];
    assert all[|fs|] == f;
  }

  /** Entries that fit and are distinct are the whole manifest exactly when their number is right. */
  lemma RightNumber(h: Host, files: map<Path, Entry>, dirs: set<Path>, fs: seq<Found>)
    requires AllFit(h, files, dirs, fs) && Distinct(h, fs)
    ensures |fs| <= |files| + |dirs|
    ensures |fs| == |files| + |dirs| <==> FileKeys(h, fs) == files.Keys && DirKeys(h, fs) == dirs
  {
    DistinctCounts(h, fs);
    KindsPart(h, files, dirs, fs);
    var f, d := FileKeys(h, fs), DirKeys(h, fs);
    hide FileKeys, DirKeys, Keys;
    assert |f + d| == |f| + |d|;
    Subsets(f, files.Keys);
    Subsets(d, dirs);
  }

  lemma KindsPart(h: Host, files: map<Path, Entry>, dirs: set<Path>, fs: seq<Found>)
    requires AllFit(h, files, dirs, fs) && Distinct(h, fs)
    ensures FileKeys(h, fs) <= files.Keys && DirKeys(h, fs) <= dirs
    ensures FileKeys(h, fs) * DirKeys(h, fs) == {} && Keys(h, fs) == FileKeys(h, fs) + DirKeys(h, fs)
  {
    hide KeyOf;
    forall i | 0 <= i < |fs|
      ensures fs[i].node.File? ==> KeyOf(h, fs[i].path) in files.Keys
      ensures fs[i].node.Dir? ==> KeyOf(h, fs[i].path) in dirs
      ensures !fs[i].node.Link?
    {
      assert Fits(h, files, dirs, fs[i]);
    }
  }

  // What being exact says of the manifest itself.

  /** load_manifest refuses a manifest with two entries of one key. */
  predicate UniqueKeys(h: Host, entries: seq<Entry>) {
    forall j, k | 0 <= j < k < |entries| :: KeyOf(h, entries[j].path) != KeyOf(h, entries[k].path)
  }

  /** The file that an entry of the manifest lists, with its size and digest. */
  predicate IsListed(h: Host, e: Entry, f: Found) {
    f.node.File? && KeyOf(h, f.path) == KeyOf(h, e.path)
    && |f.node.content| == e.size && h.digest(f.node.content) == e.hash
  }

  predicate LeadsTo(h: Host, e: Entry, f: Found) {
    f.node.Dir? && IsDirOf(KeyOf(h, e.path), KeyOf(h, f.path))
  }

  /** A listed file, or a directory above one. */
  ghost predicate Belongs(h: Host, entries: seq<Entry>, f: Found) {
    exists i | 0 <= i < |entries| :: IsListed(h, entries[i], f) || LeadsTo(h, entries[i], f)
  }

  ghost predicate NothingElse(h: Host, entries: seq<Entry>, fs: seq<Found>) {
    forall k | 0 <= k < |fs| :: Belongs(h, entries, fs[k])
  }

  /** Every listed file is met, and every directory above it. */
  ghost predicate NothingMissing(h: Host, entries: seq<Entry>, fs: seq<Found>) {
    forall i | 0 <= i < |entries| ::
      && KeyOf(h, entries[i].path) in FileKeys(h, fs)
      && ParentsOf(KeyOf(h, entries[i].path)) <= DirKeys(h, fs)
  }

  lemma {:induction false} FileFrom(h: Host, entries: seq<Entry>, key: Path) returns (i: nat)
    requires key in FilesOf(h, entries)
    ensures i < |entries| && KeyOf(h, entries[i].path) == key && FilesOf(h, entries)[key] == entries[i]
    decreases |entries|
  {
    hide KeyOf;
    var n := |entries| - 1;
    if KeyOf(h, entries[n].path) == key {
      i := n;
    } else {
      i := FileFrom(h, entries[..n], key);
    }
  }

  lemma FitsMeans(h: Host, entries: seq<Entry>, f: Found)
    requires UniqueKeys(h, entries)
    ensures Fits(h, FilesOf(h, entries), DirsOf(h, entries), f) <==> Belongs(h, entries, f)
  {
    hide KeyOf, FilesOf, DirsOf;
    var key := KeyOf(h, f.path);
    DirsMean(h, entries, key);
    if f.node.File? {
      if key in FilesOf(h, entries) {
        var i := FileFrom(h, entries, key);
        assert IsListed(h, entries[i], f) <==> Fits(h, FilesOf(h, entries), DirsOf(h, entries), f);
      }
      forall i | 0 <= i < |entries| && IsListed(h, entries[i], f)
        ensures Fits(h, FilesOf(h, entries), DirsOf(h, entries), f)
      {
        FilesMean(h, entries, i);
      }
    } else if i :| 0 <= i < |entries| && IsDirOf(KeyOf(h, entries[i].path), key) {
      assert f.node.Dir? ==> LeadsTo(h, entries[i], f);
    }
  }

  lemma MissingMeans(h: Host, entries: seq<Entry>, fs: seq<Found>)
    requires UniqueKeys(h, entries)
    ensures NothingMissing(h, entries, fs) <==>
            FilesOf(h, entries).Keys <= FileKeys(h, fs) && DirsOf(h, entries) <= DirKeys(h, fs)
  {
    hide KeyOf, FilesOf, DirsOf, FileKeys, DirKeys;
    if NothingMissing(h, entries, fs) {
      forall key | key in FilesOf(h, entries)
        ensures key in FileKeys(h, fs)
      {
        var i := FileFrom(h, entries, key);
      }
      forall dir | dir in DirsOf(h, entries)
        ensures dir in DirKeys(h, fs)
      {
        DirsMean(h, entries, dir);
        var i :| 0 <= i < |entries| && IsDirOf(KeyOf(h, entries[i].path), dir);
        assert dir in ParentsOf(KeyOf(h, entries[i].path));
      }
    } else {
      var i :| 0 <= i < |entries| && !(KeyOf(h, entries[i].path) in FileKeys(h, fs)
                                       && ParentsOf(KeyOf(h, entries[i].path)) <= DirKeys(h, fs));
      FilesMean(h, entries, i);
      if dir :| dir in ParentsOf(KeyOf(h, entries[i].path)) && dir !in DirKeys(h, fs) {
        DirsMean(h, entries, dir);
        assert IsDirOf(KeyOf(h, entries[i].path), dir);
      }
    }
  }

  /**
   * What is accepted: the tree holds every listed file with its size and digest and every directory above
   * one, nothing else, and nothing twice.
   */
  lemma ExactMeans(h: Host, entries: seq<Entry>, fs: seq<Found>)
    requires UniqueKeys(h, entries)
    ensures Exact(h, FilesOf(h, entries), DirsOf(h, entries), fs) <==>
            NothingElse(h, entries, fs) && Distinct(h, fs) && NothingMissing(h, entries, fs)
  {
    hide KeyOf, FilesOf, DirsOf, AllFit, NothingElse, Distinct, FileKeys, DirKeys, NothingMissing;
    var files, dirs := FilesOf(h, entries), DirsOf(h, entries);
    AllFitMeans(h, entries, fs);
    MissingMeans(h, entries, fs);
    if AllFit(h, files, dirs, fs) && Distinct(h, fs) {
      KindsPart(h, files, dirs, fs);
    }
  }

  lemma AllFitMeans(h: Host, entries: seq<Entry>, fs: seq<Found>)
    requires UniqueKeys(h, entries)
    ensures AllFit(h, FilesOf(h, entries), DirsOf(h, entries), fs) <==> NothingElse(h, entries, fs)
  {
    hide KeyOf, FilesOf, DirsOf, Fits, Belongs;
    forall k | 0 <= k < |fs|
      ensures Fits(h, FilesOf(h, entries), DirsOf(h, entries), fs[k]) <==> Belongs(h, entries, fs[k])
    {
      FitsMeans(h, entries, fs[k]);
    }
  }

  // The worklist.

  /** A directory still to be read. */
  datatype Todo = Todo(path: Path, children: seq<Child>)

  function Weight(children: seq<Child>): nat
    decreases children
  {
    if children == [] then 0
    else
      var n := children[0].node;
      (if n.Dir? then 2 + Weight(n.children) else 1) + Weight(children[1..])
  }

  function TodoWeight(todo: seq<Todo>): nat {
    if todo == [] then 0
    else
      var n := |todo| - 1;
      1 + Weight(todo[n].children) + TodoWeight(todo[..n])
  }

  function Push(todo: seq<Todo>, path: Path, c: Child): seq<Todo> {
    if c.node.Dir? then todo + [Todo(path + [c.name], c.node.children)] else todo
  }

  /** The entries in the order in which the worklist meets them. */
  function Walk(path: Path, children: seq<Child>, todo: seq<Todo>): seq<Found>
    decreases Weight(children) + TodoWeight(todo)
  {
    if children != [] then
      [Found(path + [children[0].name], children[0].node)] + Walk(path, children[1..], Push(todo, path, children[0]))
    else if todo == [] then []
    else Walk(todo[|todo| - 1].path, todo[|todo| - 1].children, todo[..|todo| - 1])
  }

  function BelowAll(todo: seq<Todo>): seq<Found> {
    if todo == [] then []
    else
      var n := |todo| - 1;
      BelowAll(todo[..n]) + Below(todo[n].path, todo[n].children)
  }

  lemma PushedBelow(path: Path, c: Child, todo: seq<Todo>)
    ensures BelowAll(Push(todo, path, c)) == BelowAll(todo) + if c.node.Dir? then Below(path + [c.name], c.node.children) else []
  {
    hide Below;
    if c.node.Dir? {
      var all := Push(todo, path, c);
      assert all[..|todo|] == todo;
    }
  }

  /** The worklist meets every entry of the tree, each exactly as often as the tree holds it. */
  lemma {:induction false} WalkMeetsAll(path: Path, children: seq<Child>, todo: seq<Todo>)
    ensures multiset(Walk(path, children, todo)) == multiset(Below(path, children)) + multiset(BelowAll(todo))
    decreases Weight(children) + TodoWeight(todo)
  {
    if children != [] {
      hide BelowAll, Push, Weight, TodoWeight, Walk;
      var c := children[0];
      WalkStep(path, children, 0, todo);
      assert children[0..] == children;
      WalkMeetsAll(path, children[1..], Push(todo, path, c));
      PushedBelow(path, c, todo);
    } else if todo != [] {
      var n := |todo| - 1;
      WalkMeetsAll(todo[n].path, todo[n].children, todo[..n]);
    }
  }

  lemma KeysGrow(h: Host, a: seq<Found>, b: seq<Found>)
    requires forall f | f in a :: f in b
    ensures Keys(h, a) <= Keys(h, b) && FileKeys(h, a) <= FileKeys(h, b) && DirKeys(h, a) <= DirKeys(h, b)
  {
    hide KeyOf;
    forall i | 0 <= i < |a|
      ensures KeyOf(h, a[i].path) in Keys(h, b)
      ensures a[i].node.File? ==> KeyOf(h, a[i].path) in FileKeys(h, b)
      ensures a[i].node.Dir? ==> KeyOf(h, a[i].path) in DirKeys(h, b)
    {
      assert a[i] in b;
      var j :| 0 <= j < |b| && b[j] == a[i];
    }
  }

  lemma FitGrow(h: Host, files: map<Path, Entry>, dirs: set<Path>, a: seq<Found>, b: seq<Found>)
    requires forall f | f in a :: f in b
    requires AllFit(h, files, dirs, b)
    ensures AllFit(h, files, dirs, a)
  {
    hide Fits;
    forall i | 0 <= i < |a|
      ensures Fits(h, files, dirs, a[i])
    {
      assert a[i] in b;
    }
  }

  /** Being exact does not depend on the order in which the tree is met. */
  lemma ExactInAnyOrder(h: Host, files: map<Path, Entry>, dirs: set<Path>, a: seq<Found>, b: seq<Found>)
    requires multiset(a) == multiset(b)
    ensures Exact(h, files, dirs, a) <==> Exact(h, files, dirs, b)
  {
    forall f
      ensures f in a <==> f in b
    {
      assert f in multiset(a) <==> f in multiset(b);
    }
    assert |multiset(a)| == |a| && |multiset(b)| == |b|;
    hide Distinct, Keys, FileKeys, DirKeys, Fits, AllFit;
    KeysGrow(h, a, b);
    KeysGrow(h, b, a);
    assert Keys(h, a) == Keys(h, b) && FileKeys(h, a) == FileKeys(h, b) && DirKeys(h, a) == DirKeys(h, b);
    DistinctCounts(h, a);
    DistinctCounts(h, b);
    if AllFit(h, files, dirs, a) {
      FitGrow(h, files, dirs, b, a);
    }
    if AllFit(h, files, dirs, b) {
      FitGrow(h, files, dirs, a, b);
    }
  }

  method Expect(h: Host, entries: seq<Entry>) returns (files: map<Path, Entry>, dirs: set<Path>)
    ensures files == FilesOf(h, entries) && dirs == DirsOf(h, entries)
  {
    hide KeyOf, ParentsOf;
    files, dirs := map[], {};
    for i := 0 to |entries|
      invariant files == FilesOf(h, entries[..i]) && dirs == DirsOf(h, entries[..i])
    {
      assert entries[..i + 1][..i] == entries[..i];
      files := files[KeyOf(h, entries[i].path) := entries[i]];
      var parents := Parents(KeyOf(h, entries[i].path));
      dirs := dirs + parents;
    }
    assert entries[..|entries|] == entries;
  }

  /** Climbs from a path to the root. */
  method Parents(key: Path) returns (dirs: set<Path>)
    ensures dirs == ParentsOf(key)
  {
    dirs := {};
    var n := |key|;
    while n > 1
      invariant n <= |key| && (n == 0 ==> key == [])
      invariant dirs == set k | n <= k < |key| && 0 < k :: key[..k]
    {
      n := n - 1;
      dirs := dirs + {key[..n]};
    }
  }

  /** The entries met so far: all fit, and their keys are in the visited set, none twice. */
  ghost predicate Met(h: Host, files: map<Path, Entry>, dirs: set<Path>, met: seq<Found>, visited: set<Path>) {
    AllFit(h, files, dirs, met) && Distinct(h, met) && visited == Keys(h, met)
  }

  lemma MeetNext(h: Host, files: map<Path, Entry>, dirs: set<Path>, met: seq<Found>, visited: set<Path>, f: Found)
    requires Met(h, files, dirs, met, visited) && Fits(h, files, dirs, f) && KeyOf(h, f.path) !in visited
    ensures Met(h, files, dirs, met + [f], visited + {KeyOf(h, f.path)})
  {
    hide Fits, KeyOf, Distinct, Keys;
    DistinctNext(h, met, f);
    KeysNext(h, met, f);
  }

  /** An exact listing is exact so far at each of its entries, which is new, fits and is not one too many. */
  lemma ExactSoFar(h: Host, files: map<Path, Entry>, dirs: set<Path>, met: seq<Found>, f: Found, rest: seq<Found>)
    requires Exact(h, files, dirs, met + [f] + rest)
    ensures Fits(h, files, dirs, f) && KeyOf(h, f.path) !in Keys(h, met) && |met| + 1 <= |files| + |dirs|
  {
    hide Fits, KeyOf, FileKeys, DirKeys, Keys;
    var all, n := met + [f] + rest, |met|;
    assert all[n] == f;
    forall i | 0 <= i < |met + [f]|
      ensures (met + [f])[i] == all[i]
    {
    }
    assert Distinct(h, met + [f]) && AllFit(h, files, dirs, met + [f]);
    DistinctNext(h, met, f);
    RightNumber(h, files, dirs, met + [f]);
  }

  lemma WalkStep(path: Path, children: seq<Child>, i: nat, todo: seq<Todo>)
    requires i < |children|
    ensures var f := Found(path + [children[i].name], children[i].node);
            Walk(path, children[i..], todo) == [f] + Walk(path, children[i + 1..], Push(todo, path, children[i]))
    ensures Weight(children[i + 1..]) + TodoWeight(Push(todo, path, children[i])) < Weight(children[i..]) + TodoWeight(todo)
  {
    assert children[i..][1..] == children[i + 1..];
  }

  /** Reads one directory: every entry of it is checked, and its directories join the worklist. */
  method ReadDirectory(h: Host, files: map<Path, Entry>, dirs: set<Path>, path: Path, children: seq<Child>,
                       todo0: seq<Todo>, visited0: set<Path>, ghost met0: seq<Found>, ghost all: seq<Found>)
    returns (ok: bool, todo: seq<Todo>, visited: set<Path>, ghost met: seq<Found>)
    requires all == met0 + Walk(path, children, todo0) && Met(h, files, dirs, met0, visited0)
    ensures ok ==> all == met + Walk([], [], todo) && Met(h, files, dirs, met, visited)
    ensures ok ==> TodoWeight(todo) <= Weight(children) + TodoWeight(todo0)
    ensures !ok ==> !Exact(h, files, dirs, all)
  {
    hide KeyOf, Fits, Push, Weight, TodoWeight, Walk, Exact, Met;
    todo, visited, met := todo0, visited0, met0;
    var i := 0;
    assert children[0..] == children;
    while i < |children|
      invariant 0 <= i <= |children| && all == met + Walk(path, children[i..], todo) && Met(h, files, dirs, met, visited)
      invariant Weight(children[i..]) + TodoWeight(todo) <= Weight(children) + TodoWeight(todo0)
    {
      var c := children[i];
      var f := Found(path + [c.name], c.node);
      ghost var rest := Walk(path, children[i + 1..], Push(todo, path, c));
      WalkStep(path, children, i, todo);
      assert met + ([f] + rest) == met + [f] + rest;
      Refused(h, files, dirs, met, visited, f, rest);
      var key := KeyOf(h, f.path);
      if key in visited {
        return false, todo, visited, met;
      }
      if |visited + {key}| > |files| + |dirs| {
        return false, todo, visited, met;
      }
      if !Fits(h, files, dirs, f) {
        return false, todo, visited, met;
      }
      MeetNext(h, files, dirs, met, visited, f);
      visited, met, todo := visited + {key}, met + [f], Push(todo, path, c);
      i := i + 1;
    }
    assert children[i..] == [];
    WalkOn(path, todo);
    ok := true;
  }

  lemma Visited(h: Host, files: map<Path, Entry>, dirs: set<Path>, met: seq<Found>, visited: set<Path>, key: Path)
    requires Met(h, files, dirs, met, visited) && key !in visited
    ensures |visited + {key}| == |met| + 1
  {
    DistinctCounts(h, met);
  }

  /** An entry that was visited, is one too many or does not fit spoils the listing. */
  lemma Refused(h: Host, files: map<Path, Entry>, dirs: set<Path>, met: seq<Found>, visited: set<Path>, f: Found,
                rest: seq<Found>)
    requires Met(h, files, dirs, met, visited)
    ensures var key := KeyOf(h, f.path);
            key in visited || |visited + {key}| > |files| + |dirs| || !Fits(h, files, dirs, f)
            ==> !Exact(h, files, dirs, met + [f] + rest)
  {
    hide KeyOf, Fits, Exact, AllFit, Distinct, Keys;
    var key := KeyOf(h, f.path);
    if Exact(h, files, dirs, met + [f] + rest) {
      ExactSoFar(h, files, dirs, met, f, rest);
      Visited(h, files, dirs, met, visited, key);
    }
  }

  lemma WalkOn(path: Path, todo: seq<Todo>)
    ensures Walk(path, [], todo) == Walk([], [], todo)
    ensures Weight([]) == 0
    ensures todo != [] ==> var n := |todo| - 1;
              Walk([], [], todo) == Walk(todo[n].path, todo[n].children, todo[..n])
              && Weight(todo[n].children) + TodoWeight(todo[..n]) < TodoWeight(todo)
  {
  }

  /** Accepts a tree exactly when it is the manifest. */
  method Verify(h: Host, root: seq<Child>, entries: seq<Entry>) returns (r: Result<()>)
    ensures r.Ok? <==> Exact(h, FilesOf(h, entries), DirsOf(h, entries), Below([], root))
  {
    hide KeyOf, Fits, FilesOf, DirsOf, Below, Weight, TodoWeight, Exact, Met, Walk;
    var files, dirs := Expect(h, entries);
    ghost var all := Walk([], [], [Todo([], root)]);
    WalkRoot(root);
    ExactInAnyOrder(h, files, dirs, all, Below([], root));
    var todo, visited := [Todo([], root)], {};
    ghost var met: seq<Found> := [];
    MetNothing(h, files, dirs);
    while todo != []
      invariant all == met + Walk([], [], todo) && Met(h, files, dirs, met, visited)
      decreases TodoWeight(todo)
    {
      var n := |todo| - 1;
      WalkOn([], todo);
      var ok;
      ok, todo, visited, met := ReadDirectory(h, files, dirs, todo[n].path, todo[n].children, todo[..n], visited, met, all);
      if !ok {
        return Err("unexpected");
      }
    }
    WalkEnds();
    assert met == all;
    Complete(h, files, dirs, met, visited);
    return if |visited| != |files| + |dirs| then Err("incomplete") else Ok(());
  }

  lemma MetNothing(h: Host, files: map<Path, Entry>, dirs: set<Path>)
    ensures Met(h, files, dirs, [], {})
  {
  }

  lemma WalkEnds()
    ensures Walk([], [], []) == []
  {
  }

  lemma Complete(h: Host, files: map<Path, Entry>, dirs: set<Path>, met: seq<Found>, visited: set<Path>)
    requires Met(h, files, dirs, met, visited)
    ensures Exact(h, files, dirs, met) <==> |visited| == |files| + |dirs|
  {
    DistinctCounts(h, met);
    RightNumber(h, files, dirs, met);
    hide AllFit, Distinct, Keys, FileKeys, DirKeys;
  }

  lemma WalkRoot(root: seq<Child>)
    ensures multiset(Walk([], [], [Todo([], root)])) == multiset(Below([], root))
  {
    var todo := [Todo([], root)];
    WalkMeetsAll([], [], todo);
    assert BelowAll(todo) == BelowAll([]) + Below([], root) == Below([], root);
  }
}
