/** The orbit map of solve6.py: each object orbits at most one centre, the
    path of an object runs through its centres to an object that orbits
    nothing, and the orbital distance of two objects is the number of
    transfers between them. */
module Orbits {
  import opened Wrappers

  /** `TreeOfOrbits._tree`: satellite to centre. */
  type Tree = map<string, string>

  /** `read_orbit_tree_mapping` over the `(centre, satellite)` pairs read from
      the input: `None` where the assertion that no satellite appears twice fails. */
  method ReadOrbitTreeMapping(pairs: seq<(string, string)>) returns (r: Option<Tree>)
    ensures r.None? <==> exists i, j :: 0 <= i < j < |pairs| && pairs[i].1 == pairs[j].1
    ensures r.Some? ==> r.value.Keys == set k | 0 <= k < |pairs| :: pairs[k].1
    ensures r.Some? ==> forall k :: 0 <= k < |pairs| ==> r.value[pairs[k].1] == pairs[k].0
  {
    var centers: Tree := map[];
    for n := 0 to |pairs|
      invariant centers.Keys == set k | 0 <= k < n :: pairs[k].1
      invariant forall k :: 0 <= k < n ==> centers[pairs[k].1] == pairs[k].0
      invariant forall i, j :: 0 <= i < j < n ==> pairs[i].1 != pairs[j].1
    {
      var (center, satellite) := pairs[n];
      if satellite in centers {
        var i :| 0 <= i < n && pairs[i].1 == satellite;
        return None;
      }
      centers := centers[satellite := center];
    }
    return Some(centers);
  }

  /** `p` is the path of `obj`: it starts at `obj`, each next element is the
      centre of the previous one, and it ends at an object orbiting nothing. */
  predicate IsPathToCenter(tree: Tree, obj: string, p: seq<string>) {
    |p| >= 1 && p[0] == obj && p[|p| - 1] !in tree &&
    forall i :: 0 <= i < |p| - 1 ==> p[i] in tree && tree[p[i]] == p[i + 1]
  }

  /** `get_path_to_center(obj)`; `fuel` bounds the depth of the recursion,
      which the interpreter's recursion limit bounds in the original, and a
      cycle of orbits never ends. */
  function PathToCenter(tree: Tree, obj: string, fuel: nat): (r: Option<seq<string>>)
    ensures r.Some? ==> IsPathToCenter(tree, obj, r.value) && |r.value| <= fuel + 1
    decreases fuel
  {
    if obj !in tree then Some([obj])
    else if fuel == 0 then None
    else
      match PathToCenter(tree, tree[obj], fuel - 1)
      case None => None
      case Some(p) => Some([obj] + p)
  }

  /** An object has at most one path. */
  lemma {:induction false} PathUnique(tree: Tree, obj: string, p: seq<string>, q: seq<string>)
    requires IsPathToCenter(tree, obj, p) && IsPathToCenter(tree, obj, q)
    ensures p == q
    decreases |p|
  {
    if |p| > 1 {
      assert |q| > 1;
      PathSuffix(tree, obj, p, 1);
      PathSuffix(tree, obj, q, 1);
      PathUnique(tree, p[1], p[1..], q[1..]);
      assert p == [p[0]] + p[1..] && q == [q[0]] + q[1..];
    } else {
      assert |q| == 1;
    }
  }

  /** The path of an element of a path is the rest of that path. */
  lemma PathSuffix(tree: Tree, obj: string, p: seq<string>, i: nat)
    requires IsPathToCenter(tree, obj, p) && i < |p|
    ensures IsPathToCenter(tree, p[i], p[i..])
  {
    forall k | 0 <= k < |p[i..]| - 1 ensures p[i..][k] in tree && tree[p[i..][k]] == p[i..][k + 1] {
      assert p[i..][k] == p[i + k] && p[i..][k + 1] == p[i + k + 1];
    }
  }

  /** Enough fuel finds the path, whatever the amount. */
  lemma {:induction false} PathFound(tree: Tree, obj: string, p: seq<string>, fuel: nat)
    requires IsPathToCenter(tree, obj, p) && |p| <= fuel + 1
    ensures PathToCenter(tree, obj, fuel) == Some(p)
    decreases fuel
  {
    if obj in tree {
      PathSuffix(tree, obj, p, 1);
      PathFound(tree, p[1], p[1..], fuel - 1);
      assert p == [obj] + p[1..];
    } else {
      assert |p| == 1 && p == [obj];
    }
  }

  /** A path never visits an object twice. */
  lemma {:induction false} PathDistinct(tree: Tree, obj: string, p: seq<string>)
    requires IsPathToCenter(tree, obj, p)
    ensures forall i, j :: 0 <= i < j < |p| ==> p[i] != p[j]
    decreases |p|
  {
    if |p| > 1 {
      PathSuffix(tree, obj, p, 1);
      PathDistinct(tree, p[1], p[1..]);
      forall j | 0 < j < |p| ensures p[0] != p[j] {
        if p[0] == p[j] {
          PathSuffix(tree, obj, p, j);
          PathUnique(tree, obj, p, p[j..]);
          assert false;
        }
      }
      forall i, j | 0 <= i < j < |p| ensures p[i] != p[j] {
        if i > 0 {
          assert p[i] == p[1..][i - 1] && p[j] == p[1..][j - 1];
        }
      }
    }
  }

  /** `list.index(x)`: the first position of `x`. */
  function Index(s: seq<string>, x: string): (i: nat)
    requires x in s
    ensures i < |s| && s[i] == x && x !in s[..i]
  {
    if s[0] == x then 0
    else
      assert x in s[1..];
      var i := Index(s[1..], x);
      assert s[..i + 1] == [s[0]] + s[1..][..i];
      i + 1
  }

  /** The nested loops at the end of `get_orbital_distance`: for the first
      element of `p1`, in order, that also appears in `p2`, its position in
      `p1` plus its first position in `p2`; `None` when they share nothing. */
  function FirstCommon(p1: seq<string>, p2: seq<string>): (r: Option<nat>)
    ensures r.None? <==> forall x :: x in p1 ==> x !in p2
    ensures r.Some? ==> exists i :: 0 <= i < |p1| && p1[i] in p2 && (forall k :: 0 <= k < i ==> p1[k] !in p2) &&
                                  r.value == i + Index(p2, p1[i])
  {
    if p1 == [] then None
    else if p1[0] in p2 then Some(Index(p2, p1[0]))
    else
      match FirstCommon(p1[1..], p2)
      case None => None
      case Some(n) =>
        var i :| 0 <= i < |p1[1..]| && p1[1..][i] in p2 && (forall k :: 0 <= k < i ==> p1[1..][k] !in p2) &&
                n == i + Index(p2, p1[1..][i]);
        assert p1[i + 1] == p1[1..][i];
        assert forall k :: 1 <= k < i + 1 ==> p1[k] == p1[1..][k - 1];
        Some(n + 1)
  }

  /** What `get_orbital_distance` returns: a number of transfers, the `None`
      of two objects with no common centre, or a recursion that ran out. */
  datatype Distance = Steps(n: nat) | Unrelated | TooDeep

  /** `get_orbital_distance(obj1, obj2)`. */
  function GetOrbitalDistance(tree: Tree, obj1: string, obj2: string, fuel: nat): (r: Distance)
    ensures r.TooDeep? <==> (PathToCenter(tree, obj1, fuel).None? ||
      (obj2 !in PathToCenter(tree, obj1, fuel).value && PathToCenter(tree, obj2, fuel).None?))
  {
    match PathToCenter(tree, obj1, fuel)
    case None => TooDeep
    case Some(path1) =>
      if obj2 in path1 then Steps(Index(path1, obj2))
      else
        match PathToCenter(tree, obj2, fuel)
        case None => TooDeep
        case Some(path2) =>
          if obj1 in path2 then Steps(Index(path2, obj1))
          else
            match FirstCommon(path1, path2)
            case None => Unrelated
            case Some(n) => Steps(n)
  }

  /** Transfers along two paths through a common object `c`. */
  function Via(p1: seq<string>, p2: seq<string>, c: string): nat
    requires c in p1 && c in p2
  {
    Index(p1, c) + Index(p2, c)
  }

  /** On two paths, the positions of a common object differ by the same
      amount for every common object: the common objects form a common tail. */
  lemma CommonTail(tree: Tree, a: string, b: string, p1: seq<string>, p2: seq<string>, c: string, d: string)
    requires IsPathToCenter(tree, a, p1) && IsPathToCenter(tree, b, p2)
    requires c in p1 && c in p2 && d in p1 && d in p2
    requires Index(p1, c) <= Index(p1, d)
    ensures Index(p2, c) <= Index(p2, d)
    ensures Index(p1, d) - Index(p1, c) == Index(p2, d) - Index(p2, c)
  {
    var i1, j1 := Index(p1, c), Index(p2, c);
    SameTail(tree, a, b, p1, p2, i1, j1, Index(p1, d) - i1);
  }

  /** Two paths through a common object continue alike from it: the object
      `k` places further on the first is `k` places further on the second. */
  lemma SameTail(tree: Tree, a: string, b: string, p1: seq<string>, p2: seq<string>, i: nat, j: nat, k: nat)
    requires IsPathToCenter(tree, a, p1) && IsPathToCenter(tree, b, p2)
    requires i < |p1| && j < |p2| && p1[i] == p2[j] && i + k < |p1|
    ensures j + k < |p2| && p2[j + k] == p1[i + k] && Index(p2, p2[j + k]) == j + k
  {
    PathSuffix(tree, a, p1, i);
    PathSuffix(tree, b, p2, j);
    PathUnique(tree, p1[i], p1[i..], p2[j..]);
    assert p2[j..][k] == p1[i..][k];
    IndexOfOccurrence(tree, b, p2, j + k);
  }

  /** On a path, an object's first position is its only one. */
  lemma IndexOfOccurrence(tree: Tree, b: string, p: seq<string>, k: nat)
    requires IsPathToCenter(tree, b, p) && k < |p|
    ensures Index(p, p[k]) == k
  {
    PathDistinct(tree, b, p);
  }

  /** When `b` lies on the path of `a`, going through `b` itself is the
      shortest way round. */
  lemma ShortestThroughEnd(tree: Tree, a: string, b: string, p1: seq<string>, p2: seq<string>)
    requires IsPathToCenter(tree, a, p1) && IsPathToCenter(tree, b, p2) && b in p1
    ensures b in p2 && Via(p1, p2, b) == Index(p1, b)
    ensures forall c :: c in p1 && c in p2 ==> Index(p1, b) <= Via(p1, p2, c)
  {
    assert Index(p2, b) == 0;
    forall c | c in p1 && c in p2 ensures Index(p1, b) <= Via(p1, p2, c) {
      if Index(p1, c) < Index(p1, b) {
        CommonTail(tree, a, b, p1, p2, c, b);
      }
    }
  }

  /** The first object of `p1` that `p2` shares is the shortest way round. */
  lemma ShortestThroughFirst(tree: Tree, a: string, b: string, p1: seq<string>, p2: seq<string>)
    requires IsPathToCenter(tree, a, p1) && IsPathToCenter(tree, b, p2) && FirstCommon(p1, p2).Some?
    ensures exists c :: c in p1 && c in p2 && FirstCommon(p1, p2).value == Via(p1, p2, c)
    ensures forall c :: c in p1 && c in p2 ==> FirstCommon(p1, p2).value <= Via(p1, p2, c)
  {
    var i :| 0 <= i < |p1| && p1[i] in p2 && (forall k :: 0 <= k < i ==> p1[k] !in p2) &&
             FirstCommon(p1, p2).value == i + Index(p2, p1[i]);
    var x := p1[i];
    assert Index(p1, x) == i;
    forall c | c in p1 && c in p2 ensures FirstCommon(p1, p2).value <= Via(p1, p2, c) {
      var k := Index(p1, c);
      assert p1[k] in p2;
      CommonTail(tree, a, b, p1, p2, x, c);
    }
  }

  /** The distance found is the fewest transfers through any object the two
      paths share, and two objects are unrelated exactly when they share none. */
  lemma DistanceIsShortest(tree: Tree, obj1: string, obj2: string, fuel: nat,
                           p1: seq<string>, p2: seq<string>)
    requires IsPathToCenter(tree, obj1, p1) && IsPathToCenter(tree, obj2, p2)
    requires |p1| <= fuel + 1 && |p2| <= fuel + 1
    ensures GetOrbitalDistance(tree, obj1, obj2, fuel).Unrelated? <==> forall c :: c in p1 ==> c !in p2
    ensures GetOrbitalDistance(tree, obj1, obj2, fuel).Steps? ==>
      (exists c :: c in p1 && c in p2 && GetOrbitalDistance(tree, obj1, obj2, fuel).n == Via(p1, p2, c)) &&
      (forall c :: c in p1 && c in p2 ==> GetOrbitalDistance(tree, obj1, obj2, fuel).n <= Via(p1, p2, c))
  {
    PathFound(tree, obj1, p1, fuel);
    PathFound(tree, obj2, p2, fuel);
    if obj2 in p1 {
      ShortestThroughEnd(tree, obj1, obj2, p1, p2);
    } else if obj1 in p2 {
      ShortestThroughEnd(tree, obj2, obj1, p2, p1);
    } else if FirstCommon(p1, p2).Some? {
      ShortestThroughFirst(tree, obj1, obj2, p1, p2);
    }
  }

  /** The orbital distance of an object to itself is 0. */
  lemma DistanceToSelf(tree: Tree, obj: string, fuel: nat)
    requires PathToCenter(tree, obj, fuel).Some?
    ensures GetOrbitalDistance(tree, obj, obj, fuel) == Steps(0)
  {
  }

  /** The orbital distance does not depend on the order of the two objects. */
  lemma DistanceSymmetric(tree: Tree, obj1: string, obj2: string, fuel: nat, p1: seq<string>, p2: seq<string>)
    requires IsPathToCenter(tree, obj1, p1) && IsPathToCenter(tree, obj2, p2)
    requires |p1| <= fuel + 1 && |p2| <= fuel + 1
    ensures GetOrbitalDistance(tree, obj1, obj2, fuel) == GetOrbitalDistance(tree, obj2, obj1, fuel)
  {
    DistanceIsShortest(tree, obj1, obj2, fuel, p1, p2);
    DistanceIsShortest(tree, obj2, obj1, fuel, p2, p1);
    var r, s := GetOrbitalDistance(tree, obj1, obj2, fuel), GetOrbitalDistance(tree, obj2, obj1, fuel);
    PathFound(tree, obj1, p1, fuel);
    PathFound(tree, obj2, p2, fuel);
    if r.Steps? && s.Steps? {
      var c :| c in p1 && c in p2 && r.n == Via(p1, p2, c);
      var d :| d in p2 && d in p1 && s.n == Via(p2, p1, d);
      assert r.n <= Via(p1, p2, d) && s.n <= Via(p2, p1, c);
    }
  }

  /** `sum(len(tree.get_path_to_center(obj)) - 1 for obj in objs)`: the number
      of direct and indirect orbits of `objs`. */
  function TotalOrbits(tree: Tree, objs: seq<string>, fuel: nat): (r: Option<nat>)
    ensures r.Some? ==> forall k :: 0 <= k < |objs| ==> PathToCenter(tree, objs[k], fuel).Some?
  {
    if objs == [] then Some(0)
    else
      match PathToCenter(tree, objs[|objs| - 1], fuel)
      case None => None
      case Some(p) =>
        match TotalOrbits(tree, objs[..|objs| - 1], fuel)
        case None => None
        case Some(t) => Some(t + |p| - 1)
  }

  /** Every object that orbits something orbits at least once. */
  lemma {:induction false} TotalOrbitsAtLeast(tree: Tree, objs: seq<string>, fuel: nat)
    requires forall k :: 0 <= k < |objs| ==> objs[k] in tree
    requires TotalOrbits(tree, objs, fuel).Some?
    ensures TotalOrbits(tree, objs, fuel).value >= |objs|
    decreases |objs|
  {
    if objs != [] {
      TotalOrbitsAtLeast(tree, objs[..|objs| - 1], fuel);
    }
  }
}
