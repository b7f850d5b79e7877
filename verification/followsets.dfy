/** FindFollowSets: propagate lookaheads along links until nothing changes.  Which
    configurations still have something to pass on is kept as their status. */
module FollowSets {

  /** A path of links. */
  ghost predicate IsPath<T>(links: map<T, seq<T>>, path: seq<T>, a: T, b: T) {
    && path != [] && path[0] == a && path[|path| - 1] == b
    && forall i :: 0 <= i < |path| - 1 ==> path[i] in links && path[i + 1] in links[path[i]]
  }

  /** b is reached from something that held t at the start. */
  ghost predicate HasOrigin<T(!new)>(links: map<T, seq<T>>, fws0: map<T, set<nat>>, b: T, t: nat) {
    exists a, path :: a in fws0 && t in fws0[a] && IsPath(links, path, a, b)
  }

  /** The links of every node are nodes, and lookaheads are below the limit. */
  ghost predicate GraphOk<T(!new)>(links: map<T, seq<T>>, fws: map<T, set<nat>>, limit: nat) {
    && links.Keys == fws.Keys
    && (forall a, k :: a in links && 0 <= k < |links[a]| ==> links[a][k] in fws)
    && forall a, t :: a in fws && t in fws[a] ==> t < limit
  }

  ghost predicate Passed<T>(links: map<T, seq<T>>, fws: map<T, set<nat>>, a: T, n: nat) {
    a in links && a in fws && forall k :: 0 <= k < n && k < |links[a]| && links[a][k] in fws ==> fws[a] <= fws[links[a][k]]
  }

  ghost predicate PassedOn<T>(links: map<T, seq<T>>, fws: map<T, set<nat>>, a: T) {
    a in links && Passed(links, fws, a, |links[a]|)
  }

  /** An assignment of bounds that respects the links. */
  ghost predicate Respects<T(!new)>(links: map<T, seq<T>>, bound: T -> set<nat>) {
    forall a, k :: a in links && 0 <= k < |links[a]| ==> bound(a) <= bound(links[a][k])
  }

  /** Between the start and the bound. */
  ghost predicate Between<T(!new)>(fws0: map<T, set<nat>>, bound: T -> set<nat>, fws: map<T, set<nat>>) {
    fws.Keys == fws0.Keys && forall a :: a in fws ==> fws0[a] <= fws[a] <= bound(a)
  }

  /** What is complete has passed on what it holds. */
  ghost predicate StatusOk<T(!new)>(links: map<T, seq<T>>, fws: map<T, set<nat>>, incomplete: set<T>) {
    forall a :: a in fws && a !in incomplete ==> PassedOn(links, fws, a)
  }

  ghost function Missing<T(!new)>(fws: map<T, set<nat>>, limit: nat): set<(T, int)> {
    set a, t | a in fws && 0 <= t < limit && t !in fws[a] :: (a, t)
  }

  lemma UnionShrinks<T(!new)>(fws: map<T, set<nat>>, limit: nat, a: T, b: T)
    requires a in fws && b in fws && !(fws[a] <= fws[b]) && forall t :: t in fws[a] ==> t < limit
    ensures Missing(fws[b := fws[b] + fws[a]], limit) < Missing(fws, limit)
  {
    var t :| t in fws[a] && t !in fws[b];
    assert (b, t) in Missing(fws, limit) && (b, t) !in Missing(fws[b := fws[b] + fws[a]], limit);
  }

  lemma UnionKeepsStatus<T(!new)>(links: map<T, seq<T>>, fws: map<T, set<nat>>, incomplete: set<T>, a: T, b: T)
    requires a in fws && b in fws && StatusOk(links, fws, incomplete)
    ensures StatusOk(links, fws[b := fws[b] + fws[a]], incomplete + {b})
  {
    var fws' := fws[b := fws[b] + fws[a]];
    forall c | c in fws' && c !in incomplete + {b}
      ensures PassedOn(links, fws', c)
    {
      assert PassedOn(links, fws, c);
    }
  }

  /** One node of a pass: union its set into each of its links, in order. */
  method PassOn<T(==, !new)>(links: map<T, seq<T>>, before: map<T, set<nat>>, incomplete: set<T>, a: T,
                             limit: nat, ghost fws0: map<T, set<nat>>, ghost bound: T -> set<nat>)
    returns (fws: map<T, set<nat>>, incomplete': set<T>, progress: bool)
    requires GraphOk(links, before, limit) && a in before && Respects(links, bound) && Between(fws0, bound, before)
    requires StatusOk(links, before, incomplete)
    ensures GraphOk(links, fws, limit) && Between(fws0, bound, fws) && StatusOk(links, fws, incomplete')
    ensures if progress then Missing(fws, limit) < Missing(before, limit)
            else fws == before && incomplete' == incomplete - {a}
  {
    fws, progress := before, false;
    var marked := incomplete + {a};
    for k := 0 to |links[a]|
      invariant GraphOk(links, fws, limit) && Between(fws0, bound, fws) && StatusOk(links, fws, marked)
      invariant Passed(links, fws, a, k) && a in marked
      invariant if progress then Missing(fws, limit) < Missing(before, limit) else fws == before && marked == incomplete + {a}
    {
      var b := links[a][k];
      if !(fws[a] <= fws[b]) {
        UnionShrinks(fws, limit, a, b);
        UnionKeepsStatus(links, fws, marked, a, b);
        fws, marked, progress := fws[b := fws[b] + fws[a]], marked + {b}, true;
      }
    }
    incomplete' := marked - {a};
  }

  /** One pass over all configurations. */
  method Pass<T(==, !new)>(nodes: seq<T>, links: map<T, seq<T>>, before: map<T, set<nat>>, incomplete: set<T>,
                           limit: nat, ghost fws0: map<T, set<nat>>, ghost bound: T -> set<nat>)
    returns (fws: map<T, set<nat>>, incomplete': set<T>, progress: bool)
    requires GraphOk(links, before, limit) && Respects(links, bound) && Between(fws0, bound, before)
    requires StatusOk(links, before, incomplete) && forall k :: 0 <= k < |nodes| ==> nodes[k] in before
    ensures GraphOk(links, fws, limit) && Between(fws0, bound, fws) && StatusOk(links, fws, incomplete')
    ensures if progress then Missing(fws, limit) < Missing(before, limit)
            else fws == before && incomplete' <= incomplete && forall k :: 0 <= k < |nodes| ==> nodes[k] !in incomplete'
  {
    fws, incomplete', progress := before, incomplete, false;
    for n := 0 to |nodes|
      invariant GraphOk(links, fws, limit) && Between(fws0, bound, fws) && StatusOk(links, fws, incomplete')
      invariant if progress then Missing(fws, limit) < Missing(before, limit)
                else fws == before && incomplete' <= incomplete && forall k :: 0 <= k < n ==> nodes[k] !in incomplete'
    {
      if nodes[n] in incomplete' {
        var change;
        fws, incomplete', change := PassOn(links, fws, incomplete', nodes[n], limit, fws0, bound);
        progress := progress || change;
      }
    }
  }

  /** The bound that is exactly what has an origin. */
  ghost function Origins<T(!new)>(links: map<T, seq<T>>, fws0: map<T, set<nat>>, limit: nat): T -> set<nat> {
    (b: T) => set t | 0 <= t < limit && HasOrigin(links, fws0, b, t)
  }

  lemma OriginsRespect<T(!new)>(links: map<T, seq<T>>, fws0: map<T, set<nat>>, limit: nat)
    ensures Respects(links, Origins(links, fws0, limit))
  {
    var bound := Origins(links, fws0, limit);
    forall a, k | a in links && 0 <= k < |links[a]|
      ensures bound(a) <= bound(links[a][k])
    {
      forall t | t in bound(a)
        ensures t in bound(links[a][k])
      {
        var c, path :| c in fws0 && t in fws0[c] && IsPath(links, path, c, a);
        assert IsPath(links, path + [links[a][k]], c, links[a][k]);
      }
    }
  }

  lemma OriginsStart<T(!new)>(links: map<T, seq<T>>, fws0: map<T, set<nat>>, limit: nat)
    requires GraphOk(links, fws0, limit)
    ensures Between(fws0, Origins(links, fws0, limit), fws0)
  {
    forall a, t | a in fws0 && t in fws0[a]
      ensures t in Origins(links, fws0, limit)(a)
    {
      assert IsPath(links, [a], a, a);
    }
  }

  /** Along a path every set contains what the first held at the start. */
  lemma {:induction false} PathPasses<T(!new)>(links: map<T, seq<T>>, fws: map<T, set<nat>>, path: seq<T>, a: T, b: T, t: nat)
    requires links.Keys == fws.Keys && (forall x, k :: x in links && 0 <= k < |links[x]| ==> links[x][k] in fws)
    requires (forall x :: x in fws ==> PassedOn(links, fws, x)) && IsPath(links, path, a, b) && a in fws && t in fws[a]
    ensures b in fws && t in fws[b]
    decreases |path|
  {
    if |path| > 1 {
      var k :| 0 <= k < |links[path[0]]| && links[path[0]][k] == path[1];
      assert PassedOn(links, fws, a);
      PathPasses(links, fws, path[1..], path[1], b, t);
    }
  }

  /** FindFollowSets stops, and then a lookahead is in a set exactly if a configuration
      that held it at the start reaches that set through links. */
  method FindFollowSets<T(==, !new)>(nodes: seq<T>, links: map<T, seq<T>>, fws0: map<T, set<nat>>, limit: nat)
    returns (fws: map<T, set<nat>>)
    requires GraphOk(links, fws0, limit) && forall a :: a in fws0 <==> a in nodes
    ensures fws.Keys == fws0.Keys
    ensures forall b, t :: b in fws ==> (t in fws[b] <==> HasOrigin(links, fws0, b, t))
  {
    ghost var bound := Origins(links, fws0, limit);
    OriginsRespect(links, fws0, limit);
    OriginsStart(links, fws0, limit);
    fws := fws0;
    var incomplete := set a | a in nodes;
    var progress := true;
    while progress
      invariant GraphOk(links, fws, limit) && Between(fws0, bound, fws) && StatusOk(links, fws, incomplete)
      invariant !progress ==> forall k :: 0 <= k < |nodes| ==> nodes[k] !in incomplete
      decreases Missing(fws, limit), progress
    {
      fws, incomplete, progress := Pass(nodes, links, fws, incomplete, limit, fws0, bound);
    }
    OriginsAreHeld(links, fws0, fws);
  }

  lemma OriginsAreHeld<T(!new)>(links: map<T, seq<T>>, fws0: map<T, set<nat>>, fws: map<T, set<nat>>)
    requires links.Keys == fws.Keys == fws0.Keys && (forall a, k :: a in links && 0 <= k < |links[a]| ==> links[a][k] in fws)
    requires (forall a :: a in fws ==> fws0[a] <= fws[a]) && forall a :: a in fws ==> PassedOn(links, fws, a)
    ensures forall b, t :: b in fws && HasOrigin(links, fws0, b, t) ==> t in fws[b]
  {
    forall b, t | b in fws && HasOrigin(links, fws0, b, t)
      ensures t in fws[b]
    {
      var a, path :| a in fws0 && t in fws0[a] && IsPath(links, path, a, b);
      PathPasses(links, fws, path, a, b, t);
    }
  }
}
