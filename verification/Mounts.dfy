// Whether a mount is the one that a pathname lookup of its mountpoint ends on.
module Mounts {
  import opened Bytes

  /** A mount; its mountpoint is the absolute pathname of its list of names. */
  datatype Mount = Mount(id: int, parent: int, path: seq<string>)

  // Mountpoints as texts and as lists of names.

  predicate Name(s: string) {
    s != "" && '/' !in s
  }

  predicate Names(p: seq<string>) {
    forall i | 0 <= i < |p| :: Name(p[i])
  }

  function Tail(p: seq<string>): string {
    if p == [] then "" else "/" + p[0] + Tail(p[1..])
  }

  /** The absolute pathname of a list of names. */
  function Render(p: seq<string>): string {
    if p == [] then "/" else Tail(p)
  }

  /** The source's test that one mountpoint is another or an ancestor directory of it. */
  predicate Covers(over: string, path: string) {
    path == over || (if over == "/" then "/" else over + "/") <= path
  }

  lemma {:induction false} TailPrefix(a: seq<string>, b: seq<string>)
    requires Names(a) && Names(b)
    ensures Tail(a) == Tail(b) <==> a == b
    ensures Tail(a) + "/" <= Tail(b) <==> a < b
    decreases |a|
  {
    if a == [] {
      if b != [] {
        assert Tail(b)[0] == '/';
      }
    } else if b != [] {
      var x, y := a[0], b[0];
      assert Name(x) && Name(y);
      TailPrefix(a[1..], b[1..]);
      assert a == [x] + a[1..] && b == [y] + b[1..];
      if x == y {
        SameHead(x, Tail(a[1..]), Tail(b[1..]));
        assert a < b <==> a[1..] < b[1..];
      } else {
        OtherHead(x, Tail(a[1..]), y, Tail(b[1..]));
      }
    }
  }

  lemma SameHead(x: string, s: string, t: string)
    ensures "/" + x + s == "/" + x + t <==> s == t
    ensures "/" + x + s + "/" <= "/" + x + t <==> s + "/" <= t
  {
    var h := "/" + x;
    assert h + s == h + t <==> s == t by {
      assert s == (h + s)[|h|..] && t == (h + t)[|h|..];
    }
    assert h + s + "/" == h + (s + "/");
    if h + s + "/" <= h + t {
      assert s + "/" == (h + (s + "/"))[|h|..] && t == (h + t)[|h|..];
    }
    if s + "/" <= t {
      assert h + t == h + (s + "/") + t[|s| + 1..];
    }
  }

  /** Where the first names differ, neither pathname is or starts the other. */
  lemma OtherHead(x: string, s: string, y: string, t: string)
    requires Name(x) && Name(y) && x != y && (s != "" ==> s[0] == '/') && (t != "" ==> t[0] == '/')
    ensures "/" + x + s != "/" + y + t
    ensures !("/" + x + s + "/" <= "/" + y + t)
  {
    var a, b := "/" + x + s + "/", "/" + y + t + "/";
    if |x| == |y| {
      var k :| 0 <= k < |x| && x[k] != y[k];
      assert a[1 + k] == x[k] && b[1 + k] == y[k];
    } else {
      var n := if |x| < |y| then |x| else |y|;
      assert a[1 + n] != b[1 + n] by {
        assert a[1 + n] == if n < |x| then x[n] else if s != "" then s[0] else '/';
        assert b[1 + n] == if n < |y| then y[n] else if t != "" then t[0] else '/';
      }
    }
  }

  /** The test on texts is the prefix order on lists of names. */
  lemma CoversIsPrefix(a: seq<string>, b: seq<string>)
    requires Names(a) && Names(b)
    ensures Covers(Render(a), Render(b)) <==> a <= b
  {
    TailPrefix(a, b);
    if a != [] && b != [] {
      assert Name(a[0]) && Name(b[0]);
      assert Tail(a)[1] == a[0][0] != '/';
    } else if b != [] {
      assert Tail(b)[0] == '/';
    } else if a != [] {
      assert Name(a[0]) && Tail(a)[1] == a[0][0];
    }
  }

  // Ancestry.

  predicate UniqueIds(mounts: seq<Mount>) {
    forall i, j | 0 <= i < |mounts| && 0 <= j < |mounts| && mounts[i].id == mounts[j].id :: i == j
  }

  function Find(mounts: seq<Mount>, id: int): Option<Mount> {
    if mounts == [] then None
    else
      var n := |mounts| - 1;
      if mounts[n].id == id then Some(mounts[n]) else Find(mounts[..n], id)
  }

  predicate IsRoot(m: Mount) {
    m.parent == m.id && m.path == []
  }

  /** The mount that a mount stands on, as the table tells. */
  function ParentOf(mounts: seq<Mount>, m: Mount): Option<Mount> {
    if IsRoot(m) then None else Find(mounts, m.parent)
  }

  /** From a mount upwards, each the parent of the one before, up to one without a parent. */
  predicate Climbs(mounts: seq<Mount>, chain: seq<Mount>, m: Mount) {
    && chain != [] && chain[0] == m
    && forall i | 0 <= i < |chain| - 1 :: ParentOf(mounts, chain[i]) == Some(chain[i + 1])
  }

  predicate NoRepeats(chain: seq<Mount>) {
    forall i, j | 0 <= i < |chain| && 0 <= j < |chain| && chain[i].id == chain[j].id :: i == j
  }

  /** The whole ancestry of a mount. */
  predicate Ancestry(mounts: seq<Mount>, chain: seq<Mount>, m: Mount) {
    Climbs(mounts, chain, m) && NoRepeats(chain) && ParentOf(mounts, chain[|chain| - 1]).None?
  }

  /** Whatever covers the mount's pathname is one of its ancestors. */
  predicate OnlyAncestorsCover(mounts: seq<Mount>, chain: seq<Mount>, m: Mount) {
    forall k | 0 <= k < |mounts| && Covers(Render(mounts[k].path), Render(m.path)) ::
      exists i | 0 <= i < |chain| :: chain[i].id == mounts[k].id
  }

  ghost predicate Visible(mounts: seq<Mount>, m: Mount) {
    UniqueIds(mounts) && exists chain :: Ancestry(mounts, chain, m) && OnlyAncestorsCover(mounts, chain, m)
  }

  /** A climb follows the one ancestry there is. */
  lemma {:induction false} OneAncestry(mounts: seq<Mount>, chain: seq<Mount>, climb: seq<Mount>, m: Mount)
    requires Ancestry(mounts, chain, m) && Climbs(mounts, climb, m)
    ensures climb <= chain
    decreases |climb|
  {
    if |climb| > 1 {
      var n := |climb| - 1;
      OneAncestry(mounts, chain, climb[..n], m);
      assert climb[n - 1] == climb[..n][n - 1] == chain[n - 1];
      assert ParentOf(mounts, climb[n - 1]) == Some(climb[n]);
      if n < |chain| {
        assert ParentOf(mounts, chain[n - 1]) == Some(chain[n]);
      }
      assert climb == climb[..n] + [climb[n]];
      assert chain[..n + 1] == chain[..n] + [chain[n]];
    }
  }

  lemma {:induction false} FindFinds(mounts: seq<Mount>, id: int)
    ensures Find(mounts, id).Some? ==> Find(mounts, id).value in mounts && Find(mounts, id).value.id == id
    ensures Find(mounts, id).None? ==> forall k | 0 <= k < |mounts| :: mounts[k].id != id
  {
    if mounts != [] {
      FindFinds(mounts[..|mounts| - 1], id);
    }
  }

  lemma FindUnique(mounts: seq<Mount>, m: Mount)
    requires UniqueIds(mounts) && m in mounts
    ensures Find(mounts, m.id) == Some(m)
  {
    FindFinds(mounts, m.id);
    var i :| 0 <= i < |mounts| && mounts[i] == m;
    if Find(mounts, m.id).Some? {
      var j :| 0 <= j < |mounts| && mounts[j] == Find(mounts, m.id).value;
    }
  }

  /** All identifiers of the table. */
  function Ids(mounts: seq<Mount>): set<int> {
    set k | 0 <= k < |mounts| :: mounts[k].id
  }

  lemma IdsNext(mounts: seq<Mount>, m: Mount)
    ensures Ids(mounts + [m]) == Ids(mounts) + {m.id}
  {
    var all := mounts + [m];
    assert forall k | 0 <= k < |mounts| :: all[k] == mounts[k];
    assert all[|mounts|] == m;
  }

  method HasDuplicates(mounts: seq<Mount>) returns (d: bool)
    ensures d <==> !UniqueIds(mounts)
  {
    var i, seen := 0, {};
    while i < |mounts|
      invariant 0 <= i <= |mounts| && seen == Ids(mounts[..i]) && UniqueIds(mounts[..i])
    {
      assert forall k | 0 <= k < i :: mounts[..i + 1][k] == mounts[..i][k];
      assert mounts[..i + 1][i] == mounts[i];
      if mounts[i].id in seen {
        ghost var k :| 0 <= k < i && mounts[..i][k].id == mounts[i].id;
        return true;
      }
      seen := seen + {mounts[i].id};
      i := i + 1;
    }
    assert mounts[..i] == mounts;
    return false;
  }

  /** The walk up the ancestry ends on every table, with the identifiers it met or a cycle. */
  method ClimbToRoot(m: Mount, mounts: seq<Mount>) returns (ok: bool, ancestors: set<int>, ghost chain: seq<Mount>)
    ensures Climbs(mounts, chain, m)
    ensures ok ==> Ancestry(mounts, chain, m) && ancestors == Ids(chain)
    ensures !ok ==> !NoRepeats(chain)
  {
    ancestors := {};
    chain := [];
    var current := Some(m);
    while current.Some?
      invariant NoRepeats(chain) && ancestors == Ids(chain)
      invariant chain == [] ==> current == Some(m)
      invariant chain != [] ==> Climbs(mounts, chain, m) && current == ParentOf(mounts, chain[|chain| - 1])
      decreases Ids(mounts) + {m.id} - ancestors, current.Some?
    {
      var at := current.value;
      AtInTable(mounts, m, chain, at);
      ghost var longer := chain + [at];
      assert forall k | 0 <= k < |chain| :: longer[k] == chain[k];
      assert Climbs(mounts, longer, m);
      if at.id in ancestors {
        ghost var k :| 0 <= k < |chain| && chain[k].id == at.id;
        assert longer[k].id == longer[|chain|].id;
        return false, ancestors, longer;
      }
      IdsNext(chain, at);
      ancestors := ancestors + {at.id};
      chain := longer;
      current := ParentOf(mounts, at);
    }
    ok := true;
  }

  lemma AtInTable(mounts: seq<Mount>, m: Mount, chain: seq<Mount>, at: Mount)
    requires chain == [] ==> at == m
    requires chain != [] ==> ParentOf(mounts, chain[|chain| - 1]) == Some(at)
    ensures at.id in Ids(mounts) + {m.id}
  {
    if chain != [] {
      FindFinds(mounts, chain[|chain| - 1].parent);
    }
  }

  method AssertVisibleMount(m: Mount, mounts: seq<Mount>) returns (ok: bool)
    ensures ok <==> Visible(mounts, m)
  {
    hide Covers, Climbs, NoRepeats, ParentOf;
    var duplicates := HasDuplicates(mounts);
    if duplicates {
      return false;
    }
    var climbed, ancestors;
    ghost var chain;
    climbed, ancestors, chain := ClimbToRoot(m, mounts);
    OnlyThisChain(mounts, chain, m);
    if !climbed {
      return false;
    }
    var i := 0;
    while i < |mounts|
      invariant 0 <= i <= |mounts|
      invariant forall k | 0 <= k < i && Covers(Render(mounts[k].path), Render(m.path)) :: mounts[k].id in ancestors
    {
      if mounts[i].id !in ancestors && Covers(Render(mounts[i].path), Render(m.path)) {
        return false;
      }
      i := i + 1;
    }
    return true;
  }

  /** No other chain can be the ancestry. */
  lemma OnlyThisChain(mounts: seq<Mount>, chain: seq<Mount>, m: Mount)
    requires Climbs(mounts, chain, m)
    ensures forall other | Ancestry(mounts, other, m) :: chain <= other && NoRepeats(chain)
    ensures Ancestry(mounts, chain, m) ==> forall other | Ancestry(mounts, other, m) :: other == chain
  {
    forall other | Ancestry(mounts, other, m)
      ensures chain <= other && NoRepeats(chain)
      ensures Ancestry(mounts, chain, m) ==> other == chain
    {
      OneAncestry(mounts, other, chain, m);
      assert forall i | 0 <= i < |chain| :: chain[i] == other[i];
      if Ancestry(mounts, chain, m) {
        OneAncestry(mounts, chain, other, m);
      }
    }
  }

  // The verdict, told from the table alone.

  /** above is the mount that m names as its parent; a root directory that names itself has none. */
  predicate Below(mounts: seq<Mount>, m: Mount, above: Mount) {
    above in mounts && above.id == m.parent && (m.parent != m.id || m.path != [])
  }

  predicate Topmost(mounts: seq<Mount>, m: Mount) {
    (m.parent == m.id && m.path == []) || forall k | 0 <= k < |mounts| :: mounts[k].id != m.parent
  }

  /** From m upwards through the named parents to one that has none, never twice at one identifier. */
  predicate Lineage(mounts: seq<Mount>, chain: seq<Mount>, m: Mount) {
    && chain != [] && chain[0] == m && Topmost(mounts, chain[|chain| - 1])
    && (forall i | 0 <= i < |chain| - 1 :: Below(mounts, chain[i], chain[i + 1]))
    && (forall i, j | 0 <= i < j < |chain| :: chain[i].id != chain[j].id)
  }

  /** Every mount at the mountpoint or at a directory above it is in the chain. */
  predicate Holds(mounts: seq<Mount>, chain: seq<Mount>, m: Mount) {
    forall k | 0 <= k < |mounts| && mounts[k].path <= m.path :: exists i | 0 <= i < |chain| :: chain[i].id == mounts[k].id
  }

  lemma ParentExact(mounts: seq<Mount>, m: Mount, above: Mount)
    requires UniqueIds(mounts)
    ensures ParentOf(mounts, m) == Some(above) <==> Below(mounts, m, above)
    ensures ParentOf(mounts, m).None? <==> Topmost(mounts, m)
  {
    FindFinds(mounts, m.parent);
    if above in mounts {
      FindUnique(mounts, above);
    }
    if Find(mounts, m.parent).Some? {
      var k :| 0 <= k < |mounts| && mounts[k] == Find(mounts, m.parent).value;
    }
  }

  lemma AncestryExact(mounts: seq<Mount>, chain: seq<Mount>, m: Mount)
    requires UniqueIds(mounts)
    ensures Ancestry(mounts, chain, m) <==> Lineage(mounts, chain, m)
  {
    hide ParentOf, Below, Topmost, UniqueIds;
    if chain != [] {
      forall i | 0 <= i < |chain| - 1
        ensures ParentOf(mounts, chain[i]) == Some(chain[i + 1]) <==> Below(mounts, chain[i], chain[i + 1])
      {
        ParentExact(mounts, chain[i], chain[i + 1]);
      }
      ParentExact(mounts, chain[|chain| - 1], m);
    }
  }

  /** What is accepted, without the lookup table and the comparison of pathnames as texts. */
  lemma VisibleExact(mounts: seq<Mount>, m: Mount)
    requires Names(m.path) && forall k | 0 <= k < |mounts| :: Names(mounts[k].path)
    ensures Visible(mounts, m) <==>
            UniqueIds(mounts) && exists chain :: Lineage(mounts, chain, m) && Holds(mounts, chain, m)
  {
    hide Ancestry, Lineage, UniqueIds, Covers, Render, Names;
    forall k | 0 <= k < |mounts|
      ensures Covers(Render(mounts[k].path), Render(m.path)) <==> mounts[k].path <= m.path
    {
      CoversIsPrefix(mounts[k].path, m.path);
    }
    if UniqueIds(mounts) {
      forall chain
        ensures Ancestry(mounts, chain, m) <==> Lineage(mounts, chain, m)
        ensures OnlyAncestorsCover(mounts, chain, m) <==> Holds(mounts, chain, m)
      {
        AncestryExact(mounts, chain, m);
      }
    }
  }

  // Pathname lookup.

  /** A table as the kernel keeps it: names are names, and a mount stands at or below its parent's mountpoint. */
  predicate WellFormed(mounts: seq<Mount>) {
    && (forall k | 0 <= k < |mounts| :: Names(mounts[k].path))
    && (forall k | 0 <= k < |mounts| && ParentOf(mounts, mounts[k]).Some? ::
          ParentOf(mounts, mounts[k]).value.path <= mounts[k].path)
  }

  /** c stands directly on m, at this pathname. */
  predicate StandsOn(c: Mount, m: Mount, path: seq<string>) {
    c.parent == m.id && c.id != m.id && c.path == path
  }

  predicate Covered(mounts: seq<Mount>, m: Mount, path: seq<string>) {
    exists k | 0 <= k < |mounts| :: StandsOn(mounts[k], m, path)
  }

  /** A place in a lookup: the mount, and how many names of the target have been walked. */
  datatype Place = Place(mount: Mount, walked: nat)

  /** At each name the lookup first crosses into whatever stands there, then takes the next name. */
  predicate LookupStep(mounts: seq<Mount>, target: seq<string>, a: Place, b: Place)
    requires a.walked <= |target|
  {
    var here := target[..a.walked];
    if Covered(mounts, a.mount, here) then b.mount in mounts && StandsOn(b.mount, a.mount, here) && b.walked == a.walked
    else a.walked < |target| && b == Place(a.mount, a.walked + 1)
  }

  predicate LookupEnds(mounts: seq<Mount>, target: seq<string>, a: Place) {
    a.walked == |target| && !Covered(mounts, a.mount, target)
  }

  /** A lookup from a place to its end. */
  predicate LookupFrom(mounts: seq<Mount>, target: seq<string>, a: Place, trail: seq<Place>) {
    && trail != [] && trail[0] == a
    && (forall i | 0 <= i < |trail| :: trail[i].walked <= |target|)
    && (forall i | 0 <= i < |trail| - 1 :: LookupStep(mounts, target, trail[i], trail[i + 1]))
    && LookupEnds(mounts, target, trail[|trail| - 1])
  }

  /** A lookup of the target from the root mount to its end. */
  predicate Lookup(mounts: seq<Mount>, target: seq<string>, root: Mount, trail: seq<Place>) {
    LookupFrom(mounts, target, Place(root, 0), trail)
  }

  /** How far up the ancestry a lookup is: at chain[i], with the mountpoint below still ahead. */
  predicate OnChain(chain: seq<Mount>, target: seq<string>, i: nat, p: Place) {
    && i < |chain| && p.mount == chain[i] && p.walked <= |target|
    && chain[i].path <= target[..p.walked]
    && (i > 0 ==> p.walked <= |chain[i - 1].path|)
  }

  lemma {:induction false} ChainPaths(mounts: seq<Mount>, chain: seq<Mount>, m: Mount, i: nat)
    requires WellFormed(mounts) && Climbs(mounts, chain, m) && m in mounts && i < |chain|
    ensures chain[i] in mounts && chain[i].path <= m.path
    decreases i
  {
    if i > 0 {
      ChainPaths(mounts, chain, m, i - 1);
      assert ParentOf(mounts, chain[i - 1]) == Some(chain[i]);
      FindFinds(mounts, chain[i - 1].parent);
      var k :| 0 <= k < |mounts| && mounts[k] == chain[i - 1];
    }
  }

  /** What covers the mount's pathname stands in its ancestry. */
  lemma CoverIsAncestor(mounts: seq<Mount>, chain: seq<Mount>, m: Mount, c: Mount) returns (i: nat)
    requires WellFormed(mounts) && UniqueIds(mounts) && m in mounts && c in mounts && Covers(Render(c.path), Render(m.path))
    requires Climbs(mounts, chain, m) && OnlyAncestorsCover(mounts, chain, m)
    ensures i < |chain| && chain[i] == c
  {
    hide Covers, Render, Climbs, WellFormed;
    var k :| 0 <= k < |mounts| && mounts[k] == c;
    i :| 0 <= i < |chain| && chain[i].id == mounts[k].id;
    ChainPaths(mounts, chain, m, i);
    FindUnique(mounts, chain[i]);
    FindUnique(mounts, c);
  }

  /** A mount at the root directory covers every pathname, and so it is an ancestor. */
  lemma RootIsAncestor(mounts: seq<Mount>, chain: seq<Mount>, m: Mount, root: Mount) returns (i: nat)
    requires WellFormed(mounts) && UniqueIds(mounts) && m in mounts && Names(m.path) && root in mounts && root.path == []
    requires Ancestry(mounts, chain, m) && OnlyAncestorsCover(mounts, chain, m)
    ensures OnChain(chain, m.path, i, Place(root, 0))
  {
    hide Climbs, OnlyAncestorsCover, NoRepeats, WellFormed, UniqueIds, Covers;
    CoversIsPrefix(root.path, m.path);
    i := CoverIsAncestor(mounts, chain, m, root);
  }

  /** The child that stands on chain[i] is chain[i - 1]. */
  lemma ChildBelow(mounts: seq<Mount>, chain: seq<Mount>, m: Mount, i: nat, c: Mount)
    requires WellFormed(mounts) && UniqueIds(mounts) && m in mounts && c in mounts && Names(m.path)
    requires Ancestry(mounts, chain, m) && OnlyAncestorsCover(mounts, chain, m)
    requires i < |chain| && c.parent == chain[i].id && c.id != chain[i].id && c.path <= m.path
    ensures i > 0 && c == chain[i - 1]
  {
    hide Covers, Render, OnlyAncestorsCover, UniqueIds, Find;
    CoversIsPrefix(c.path, m.path);
    var j := CoverIsAncestor(mounts, chain, m, c);
    ChainPaths(mounts, chain, m, i);
    assert !IsRoot(c);
    FindUnique(mounts, chain[i]);
    assert ParentOf(mounts, c) == Some(chain[i]);
    assert ParentOf(mounts, chain[j]) == Some(chain[j + 1]);
    assert chain[j + 1].id == chain[i].id;
  }

  /** The next ancestor down stands on chain[i]. */
  lemma StandsBelow(mounts: seq<Mount>, chain: seq<Mount>, m: Mount, i: nat)
    requires UniqueIds(mounts) && Ancestry(mounts, chain, m) && 0 < i < |chain|
    ensures StandsOn(chain[i - 1], chain[i], chain[i - 1].path)
  {
    assert ParentOf(mounts, chain[i - 1]) == Some(chain[i]);
    FindFinds(mounts, chain[i - 1].parent);
    assert chain[i - 1].id != chain[i].id;
  }

  lemma StepStays(mounts: seq<Mount>, chain: seq<Mount>, m: Mount, i: nat, a: Place, b: Place) returns (j: nat)
    requires WellFormed(mounts) && UniqueIds(mounts) && m in mounts && Names(m.path)
    requires Ancestry(mounts, chain, m) && OnlyAncestorsCover(mounts, chain, m)
    requires OnChain(chain, m.path, i, a) && LookupStep(mounts, m.path, a, b)
    ensures OnChain(chain, m.path, j, b)
    ensures if Covered(mounts, a.mount, m.path[..a.walked]) then j + 1 == i else j == i
  {
    hide Ancestry, OnlyAncestorsCover, UniqueIds, WellFormed;
    var here := m.path[..a.walked];
    if Covered(mounts, a.mount, here) {
      ChildBelow(mounts, chain, m, i, b.mount);
      j := i - 1;
      if j > 0 {
        StandsBelow(mounts, chain, m, j);
        LowerIsLonger(mounts, chain, m, j);
      }
    } else {
      j := i;
      if i > 0 {
        NotYet(mounts, chain, m, i, a);
      }
    }
  }

  lemma LowerIsLonger(mounts: seq<Mount>, chain: seq<Mount>, m: Mount, j: nat)
    requires WellFormed(mounts) && Ancestry(mounts, chain, m) && m in mounts && 0 < j < |chain|
    ensures |chain[j].path| <= |chain[j - 1].path|
  {
    ChainPaths(mounts, chain, m, j - 1);
    var k :| 0 <= k < |mounts| && mounts[k] == chain[j - 1];
    assert ParentOf(mounts, chain[j - 1]) == Some(chain[j]);
  }

  /** Where nothing stands, the mountpoint of the next ancestor down is still ahead. */
  lemma NotYet(mounts: seq<Mount>, chain: seq<Mount>, m: Mount, i: nat, a: Place)
    requires WellFormed(mounts) && UniqueIds(mounts) && m in mounts
    requires Ancestry(mounts, chain, m) && OnChain(chain, m.path, i, a) && i > 0
    requires !Covered(mounts, a.mount, m.path[..a.walked])
    ensures a.walked < |chain[i - 1].path|
  {
    StandsBelow(mounts, chain, m, i);
    ChainPaths(mounts, chain, m, i - 1);
  }

  lemma {:induction false} TrailStays(mounts: seq<Mount>, chain: seq<Mount>, m: Mount, root: Mount, trail: seq<Place>, n: nat)
    returns (i: nat)
    requires WellFormed(mounts) && UniqueIds(mounts) && m in mounts && Names(m.path) && root in mounts && root.path == []
    requires Ancestry(mounts, chain, m) && OnlyAncestorsCover(mounts, chain, m)
    requires Lookup(mounts, m.path, root, trail) && n < |trail|
    ensures OnChain(chain, m.path, i, trail[n])
    decreases n
  {
    if n == 0 {
      i := RootIsAncestor(mounts, chain, m, root);
    } else {
      i := TrailStays(mounts, chain, m, root, trail, n - 1);
      assert LookupStep(mounts, m.path, trail[n - 1], trail[n]);
      i := StepStays(mounts, chain, m, i, trail[n - 1], trail[n]);
    }
  }

  /**
   * The lookup of the mountpoint of an accepted mount ends on that very mount, whichever mount at the root
   * directory it begins on: one that is its own parent, one whose parent the table does not list, or one that
   * stands on another.
   */
  lemma LookupFinds(mounts: seq<Mount>, m: Mount, root: Mount, trail: seq<Place>)
    requires WellFormed(mounts) && m in mounts && root in mounts && root.path == []
    requires Visible(mounts, m) && Lookup(mounts, m.path, root, trail)
    ensures trail[|trail| - 1].mount == m
  {
    var chain :| Ancestry(mounts, chain, m) && OnlyAncestorsCover(mounts, chain, m);
    var k :| 0 <= k < |mounts| && mounts[k] == m;
    var last := trail[|trail| - 1];
    var i := TrailStays(mounts, chain, m, root, trail, |trail| - 1);
    if i > 0 {
      assert m.path[..last.walked] == m.path;
      NotYet(mounts, chain, m, i, last);
      ChainPaths(mounts, chain, m, i - 1);
    }
  }

  /** From a place on the ancestry a lookup goes on to its end. */
  lemma {:induction false} GoesOn(mounts: seq<Mount>, chain: seq<Mount>, m: Mount, i: nat, a: Place) returns (trail: seq<Place>)
    requires WellFormed(mounts) && UniqueIds(mounts) && m in mounts && Names(m.path)
    requires Ancestry(mounts, chain, m) && OnlyAncestorsCover(mounts, chain, m)
    requires OnChain(chain, m.path, i, a)
    ensures LookupFrom(mounts, m.path, a, trail)
    decreases i, |m.path| - a.walked
  {
    var here := m.path[..a.walked];
    var b: Place;
    if Covered(mounts, a.mount, here) {
      var k :| 0 <= k < |mounts| && StandsOn(mounts[k], a.mount, here);
      b := Place(mounts[k], a.walked);
      ChildBelow(mounts, chain, m, i, mounts[k]);
    } else if a.walked == |m.path| {
      assert here == m.path;
      return [a];
    } else {
      b := Place(a.mount, a.walked + 1);
    }
    hide Ancestry, OnlyAncestorsCover, UniqueIds, WellFormed, StandsOn;
    var j := StepStays(mounts, chain, m, i, a, b);
    var rest := GoesOn(mounts, chain, m, j, b);
    hide LookupFrom, LookupStep;
    trail := [a] + rest;
  }

  /** And there is such a lookup. */
  lemma LookupExists(mounts: seq<Mount>, m: Mount, root: Mount) returns (trail: seq<Place>)
    requires WellFormed(mounts) && m in mounts && root in mounts && root.path == [] && Visible(mounts, m)
    ensures Lookup(mounts, m.path, root, trail)
  {
    var chain :| Ancestry(mounts, chain, m) && OnlyAncestorsCover(mounts, chain, m);
    var k :| 0 <= k < |mounts| && mounts[k] == m;
    var i := RootIsAncestor(mounts, chain, m, root);
    trail := GoesOn(mounts, chain, m, i, Place(root, 0));
  }
}
