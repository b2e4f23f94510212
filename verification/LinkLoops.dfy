/** When a lone link makes resolveDownloadPath go round for ever. */
module LinkLoops {
  import opened Basics
  import opened Iteration
  import opened LinkPaths
  import opened LinkChains

  /** There is a link to this target at this place, and no other link. */
  predicate LoneLink(nodes: Nodes, q: Place, target: Path) {
    q in nodes && nodes[q] == Link(target) && forall p :: p in nodes && nodes[p].Link? ==> p == q
  }

  /** The path that names a place. */
  function PathTo(q: Place): Path {
    Path(true, StepsTo(q))
  }

  /** Where the link's target leads from the directory that the link is in. */
  function TargetOf(nodes: Nodes, q: Place, target: Path): Followed {
    Follow(nodes, Begin(Parent(q), target), target.steps, 1, false)
  }

  /** The path of a link leads where its target leads. */
  lemma IntoLink(nodes: Nodes, q: Place, target: Path)
    requires Tree(nodes) && q in nodes && nodes[q] == Link(target)
    ensures q != [] && IsDir(nodes, Parent(q)) && StepsTo(q) == StepsTo(Parent(q)) + [Into(q[|q| - 1])]
    ensures Follow(nodes, [], StepsTo(Parent(q)), 0, false) == Found(Parent(q), 0)
    ensures Follow(nodes, [], StepsTo(q), 0, false) == TargetOf(nodes, q, target)
  {
    assert LiesInDir(nodes, q);
    var dir, name := Parent(q), q[|q| - 1];
    assert dir + [name] == q && StepsTo(q) == StepsTo(dir) + [Into(name)];
    RealDirFound(nodes, dir, 0);
    FollowAppend(nodes, [], StepsTo(dir), [Into(name)], 0, false);
    assert target.steps + [] == target.steps && [Into(name)][1..] == [];
  }

  /** The call on a link's own path: another call when its target leads to something missing. */
  lemma CallOnLink(nodes: Nodes, cwd: Place, q: Place, target: Path)
    requires Tree(nodes) && q in nodes && nodes[q] == Link(target)
    ensures OneCall(nodes, cwd, PathTo(q)).Again? <==> TargetOf(nodes, q, target).NotExist?
    ensures TargetOf(nodes, q, target).NotExist? ==>
              OneCall(nodes, cwd, PathTo(q)) == Again(LinkFrom(Parent(q), target))
  {
    IntoLink(nodes, q, target);
    var n := |q| - 1;
    assert StepsTo(q)[..n] == StepsTo(Parent(q)) && Parent(q) + [q[n]] == q;
    AllIntoIsClean(true, StepsTo(Parent(q)));
    assert TargetOf(nodes, q, target).NotExist? ==> Lstat(nodes, cwd, PathTo(q)) == There(q);
  }

  lemma ThroughTheLink(nodes: Nodes, q: Place, target: Path, rest: seq<Step>)
    requires Tree(nodes) && LoneLink(nodes, q, target) && TargetOf(nodes, q, target).NotExist?
    ensures Follow(nodes, Begin(Parent(q), target), target.steps + rest, 1, false).NotExist?
  {
    assert LiesInDir(nodes, q);
    if rest == [] {
      assert target.steps + rest == target.steps;
    } else {
      FollowAppend(nodes, Begin(Parent(q), target), target.steps, rest, 1, false);
    }
  }

  /** When what the link leads to is missing, a walk by names alone finds only what it names. */
  lemma {:induction false} NamesLead(nodes: Nodes, q: Place, target: Path, dir: Place, steps: seq<Step>)
    requires Tree(nodes) && LoneLink(nodes, q, target) && TargetOf(nodes, q, target).NotExist?
    requires AllInto(steps) && IsDir(nodes, dir)
    ensures var r := Follow(nodes, dir, steps, 0, false);
            r.Found? ==> StepsTo(r.place) == StepsTo(dir) + steps
    decreases |steps|
  {
    if steps != [] {
      var here, rest := dir + [steps[0].name], steps[1..];
      assert StepsTo(here) == StepsTo(dir) + [steps[0]] && steps == [steps[0]] + rest;
      if here in nodes {
        if nodes[here].Directory? {
          NamesLead(nodes, q, target, here, rest);
          Associate(StepsTo(dir), [steps[0]], rest);
        } else if nodes[here].Link? {
          assert here == q && Parent(q) == dir;
          ThroughTheLink(nodes, q, target, rest);
        }
      }
    } else {
      assert StepsTo(dir) + steps == StepsTo(dir);
    }
  }

  /** Only the path that names it makes another call on the lone link, among the paths by names alone. */
  lemma SecondCall(nodes: Nodes, cwd: Place, q: Place, target: Path, steps: seq<Step>)
    requires Tree(nodes) && LoneLink(nodes, q, target) && TargetOf(nodes, q, target).NotExist? && AllInto(steps)
    ensures OneCall(nodes, cwd, Path(true, steps)).Again? ==> steps == StepsTo(q)
  {
    var path := Path(true, steps);
    if OneCall(nodes, cwd, path).Again? {
      DanglingEnd(nodes, cwd, path);
      assert Lstat(nodes, cwd, path) == There(q);
      NamesTheLink(nodes, q, target, steps, Physical(nodes, cwd, path));
    }
  }

  lemma NamesTheLink(nodes: Nodes, q: Place, target: Path, steps: seq<Step>, first: Followed)
    requires Tree(nodes) && LoneLink(nodes, q, target) && TargetOf(nodes, q, target).NotExist?
    requires AllInto(steps) && steps != [] && first == Follow(nodes, [], steps[..|steps| - 1], 0, false)
    requires first.Found? && first.place + [steps[|steps| - 1].name] == q
    ensures steps == StepsTo(q)
  {
    var before, last := steps[..|steps| - 1], steps[|steps| - 1];
    NamesLead(nodes, q, target, [], before);
    NamedBy(first.place, last.name, q);
    assert StepsTo([]) + before == before && steps == before + [last];
  }

  lemma NamedBy(dir: Place, name: Name, q: Place)
    requires dir + [name] == q
    ensures StepsTo(q) == StepsTo(dir) + [Into(name)]
  {
  }

  /** A link whose absolute target is missing is not reached again by that target. */
  lemma AbsoluteTargetLeadsOn(nodes: Nodes, cwd: Place, q: Place, target: Path)
    requires Tree(nodes) && LoneLink(nodes, q, target) && target.absolute && TargetOf(nodes, q, target).NotExist?
    ensures OneCall(nodes, cwd, target).Answer?
  {
    if OneCall(nodes, cwd, target).Again? {
      DanglingEnd(nodes, cwd, target);
      LastElement(nodes, cwd, target, false);
      var first, last := Physical(nodes, cwd, target), target.steps[|target.steps| - 1];
      assert Lstat(nodes, cwd, target) == There(q) && first.place + [last.name] == q;
      assert [last] == [Into(last.name)] && Parent(q) == first.place && q[|q| - 1] == last.name;
      ThroughItself(nodes, q, target, first.links);
    }
  }

  /** A walk that comes to the link on the way along its own target does not end at something missing. */
  lemma ThroughItself(nodes: Nodes, q: Place, target: Path, links: nat)
    requires Tree(nodes) && q in nodes && nodes[q] == Link(target) && target.absolute && links <= MAX_LINKS
    requires q != [] && Follow(nodes, [], target.steps, 0, false).NotExist?
    ensures Follow(nodes, [], target.steps, 0, false) != Follow(nodes, Parent(q), [Into(q[|q| - 1])], links, false)
  {
    assert Parent(q) + [q[|q| - 1]] == q;
    assert target.steps + [] == target.steps && [Into(q[|q| - 1])][1..] == [];
    if links < MAX_LINKS {
      FewerLinks(nodes, [], target.steps, links + 1, 0, false);
    }
  }

  lemma CallsAgain(nodes: Nodes, cwd: Place, path: Path, n: nat)
    requires OneCall(nodes, cwd, path) == Again(path)
    ensures After(nodes, cwd, path, n).Some?
  {
    assert Iterate(Next(nodes, cwd), path, 1) == Iterate(Next(nodes, cwd), path, 0);
    ComesBack(Next(nodes, cwd), path, 1, n);
  }

  lemma EndsAfterTwo(nodes: Nodes, cwd: Place, path: Path)
    requires OneCall(nodes, cwd, path).Again? ==> OneCall(nodes, cwd, OneCall(nodes, cwd, path).path).Answer?
    ensures Resolve(nodes, cwd, path, 2) != TooDeep
  {
    TooDeepExactly(nodes, cwd, path, 2);
    if OneCall(nodes, cwd, path).Again? {
      var next := OneCall(nodes, cwd, path).path;
      assert Iterate(Next(nodes, cwd), path, 2) == Iterate(Next(nodes, cwd), next, 1);
    }
  }

  /** The link's target is relative, cleans to the link itself, and leads to something missing. */
  predicate SendsRound(nodes: Nodes, q: Place, target: Path) {
    !target.absolute && Clean(true, StepsTo(Parent(q)) + target.steps) == StepsTo(q)
    && TargetOf(nodes, q, target).NotExist?
  }

  /**
   * In any tree with one link, anywhere in it, the recursion from the link's path ends if and only if
   * the link does not have a relative target that cleans to the link itself and leads to something
   * missing. An absolute target never sends it round.
   */
  lemma LoneLinkEndsExactly(nodes: Nodes, cwd: Place, q: Place, target: Path)
    requires Tree(nodes) && LoneLink(nodes, q, target)
    ensures Ends(nodes, cwd, PathTo(q)) <==> !SendsRound(nodes, q, target)
    ensures Ends(nodes, cwd, PathTo(q)) ==> Resolve(nodes, cwd, PathTo(q), 2) != TooDeep
  {
    CallOnLink(nodes, cwd, q, target);
    if SendsRound(nodes, q, target) {
      forall depth: nat
        ensures Resolve(nodes, cwd, PathTo(q), depth) == TooDeep
      {
        CallsAgain(nodes, cwd, PathTo(q), depth);
        TooDeepExactly(nodes, cwd, PathTo(q), depth);
      }
    } else {
      if TargetOf(nodes, q, target).NotExist? {
        if target.absolute {
          AbsoluteTargetLeadsOn(nodes, cwd, q, target);
        } else {
          CleanAbsolute(StepsTo(Parent(q)) + target.steps);
          SecondCall(nodes, cwd, q, target, Clean(true, StepsTo(Parent(q)) + target.steps));
        }
      }
      EndsAfterTwo(nodes, cwd, PathTo(q));
    }
  }

  // ---- Whatever else is in the tree ----

  /** The steps without the `..`s they begin with. */
  function DropUps(steps: seq<Step>): seq<Step> {
    if steps != [] && steps[0].Up? then DropUps(steps[1..]) else steps
  }

  /** The first name on the way is this one. */
  predicate BeginsWith(steps: seq<Step>, name: Name) {
    DropUps(steps) != [] && DropUps(steps)[0] == Into(name)
  }

  /** At the root a `..` leads nowhere else. */
  lemma {:induction false} UpsStayAtRoot(nodes: Nodes, steps: seq<Step>, links: nat, create: bool)
    requires links <= MAX_LINKS
    ensures Follow(nodes, [], steps, links, create) == Follow(nodes, [], DropUps(steps), links, create)
    decreases |steps|
  {
    if steps != [] && steps[0].Up? {
      UpsStayAtRoot(nodes, steps[1..], links, create);
    }
  }

  lemma {:induction false} BeginsWithMore(steps: seq<Step>, more: seq<Step>, name: Name)
    requires BeginsWith(steps, name)
    ensures BeginsWith(steps + more, name)
    decreases |steps|
  {
    if steps[0].Up? {
      assert (steps + more)[1..] == steps[1..] + more;
      BeginsWithMore(steps[1..], more, name);
    }
  }

  /** The steps that cancel to one name have a first name. */
  lemma {:induction false} CleanHasAName(steps: seq<Step>)
    requires AllUp(steps)
    ensures Clean(true, steps) == []
    decreases |steps|
  {
    if steps != [] {
      var before := steps[..|steps| - 1];
      CleanHasAName(before);
      CleanSnoc(true, before, Up);
      assert steps == before + [Up];
    }
  }

  lemma {:induction false} NoFirstName(steps: seq<Step>)
    ensures DropUps(steps) == [] ==> AllUp(steps)
    ensures DropUps(steps) != [] ==> DropUps(steps)[0].Into?
    decreases |steps|
  {
    if steps != [] && steps[0].Up? {
      NoFirstName(steps[1..]);
    }
  }

  /** A target that begins with its own link leads round and round, until there are too many links. */
  lemma {:induction false} RoundAndRound(nodes: Nodes, p: Name, target: Path, steps: seq<Step>, links: nat)
    requires [p] in nodes && nodes[[p]] == Link(target) && !target.absolute
    requires BeginsWith(target.steps, p) && BeginsWith(steps, p) && links <= MAX_LINKS
    ensures Follow(nodes, [], steps, links, false) == OtherError
    decreases MAX_LINKS - links
  {
    UpsStayAtRoot(nodes, steps, links, false);
    var rest := DropUps(steps)[1..];
    assert [] + [p] == [p];
    if links < MAX_LINKS {
      BeginsWithMore(target.steps, rest, p);
      RoundAndRound(nodes, p, target, target.steps + rest, links + 1);
    }
  }

  /** The tree that holds nothing but the link. */
  lemma OnlyTheLink(p: Name, target: Path) returns (nodes: Nodes)
    requires !target.absolute && Clean(true, target.steps) == [Into(p)] && !BeginsWith(target.steps, p)
    ensures Tree(nodes) && LoneLink(nodes, [p], target) && TargetOf(nodes, [p], target).NotExist?
  {
    nodes := map[[p] := Link(target)];
    UpsStayAtRoot(nodes, target.steps, 1, false);
    NoFirstName(target.steps);
    if DropUps(target.steps) == [] {
      CleanHasAName(target.steps);
    } else {
      var m := DropUps(target.steps)[0].name;
      assert DropUps(target.steps)[0] == Into(m) && m != p;
      assert ([] + [m])[0] == m && [p][0] == p;
    }
  }

  /** The recursion ends for this link in every tree in which it is alone. */
  ghost predicate AlwaysEnds(q: Place, target: Path) {
    forall nodes: Nodes :: Tree(nodes) && LoneLink(nodes, q, target) ==> Ends(nodes, [], PathTo(q))
  }

  /**
   * A relative link in the root ends in every tree in which it is alone if and only if its target does
   * not clean to the link itself, or begins with it.
   */
  lemma LinkInRootAlwaysEndsExactly(p: Name, target: Path)
    requires !target.absolute
    ensures AlwaysEnds([p], target) <==> !(Clean(true, target.steps) == [Into(p)] && !BeginsWith(target.steps, p))
  {
    assert StepsTo(Parent([p])) + target.steps == target.steps && StepsTo([p]) == [Into(p)];
    if Clean(true, target.steps) == [Into(p)] && !BeginsWith(target.steps, p) {
      var nodes := OnlyTheLink(p, target);
      LoneLinkEndsExactly(nodes, [], [p], target);
    } else {
      forall nodes: Nodes | Tree(nodes) && LoneLink(nodes, [p], target)
        ensures Ends(nodes, [], PathTo([p]))
      {
        if BeginsWith(target.steps, p) {
          RoundAndRound(nodes, p, target, target.steps, 1);
        }
        LoneLinkEndsExactly(nodes, [], [p], target);
      }
    }
  }
}
