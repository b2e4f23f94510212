/**
 * The calls that resolveDownloadPath makes one after the other, over any tree and from any path, and
 * exactly when there is no last one.
 */
module LinkChains {
  import opened Basics
  import opened Iteration
  import opened LinkPaths

  // ---- The end of a path ----

  /** The elements of the path but the last, followed as they are and as cleaned. */
  function Physical(nodes: Nodes, cwd: Place, path: Path): Followed
    requires path.steps != []
  {
    Follow(nodes, Begin(cwd, path), path.steps[..|path.steps| - 1], 0, false)
  }

  function Lexical(nodes: Nodes, cwd: Place, path: Path): Followed
    requires path.steps != []
  {
    Follow(nodes, Begin(cwd, path), Clean(path.absolute, path.steps[..|path.steps| - 1]), 0, false)
  }

  /** The path leads to something missing. */
  predicate Dangles(nodes: Nodes, cwd: Place, path: Path) {
    Follow(nodes, Begin(cwd, path), path.steps, 0, false).NotExist?
  }

  /** The path ends in a link in a directory; the link then dangles too. */
  predicate AtLink(nodes: Nodes, cwd: Place, path: Path) {
    path.steps != [] && Lstat(nodes, cwd, path).There?
  }

  /** A path in two parts: the directory and the last element. */
  lemma LastElement(nodes: Nodes, cwd: Place, path: Path, create: bool)
    requires Tree(nodes) && IsDir(nodes, Begin(cwd, path)) && path.steps != []
    ensures var physical, last := Physical(nodes, cwd, path), path.steps[|path.steps| - 1];
            Follow(nodes, Begin(cwd, path), path.steps, 0, create)
            == if !physical.Found? then physical
               else if IsDir(nodes, physical.place) then Follow(nodes, physical.place, [last], physical.links, create)
               else OtherError
  {
    var n := |path.steps| - 1;
    assert path.steps == path.steps[..n] + [path.steps[n]];
    FollowAppend(nodes, Begin(cwd, path), path.steps[..n], [path.steps[n]], 0, create);
  }

  lemma UpIsFound(nodes: Nodes, dir: Place, links: nat, create: bool)
    requires links <= MAX_LINKS
    ensures Follow(nodes, dir, [Up], links, create) == Found(Parent(dir), links)
  {
    assert [Up][1..] == [];
  }

  /** What a dangling path ends in: nothing, for want of the directory or of the name, or a dangling link. */
  lemma DanglingEnd(nodes: Nodes, cwd: Place, path: Path)
    requires Tree(nodes) && IsDir(nodes, Begin(cwd, path)) && Dangles(nodes, cwd, path)
    ensures path.steps != []
    ensures var physical, last := Physical(nodes, cwd, path), path.steps[|path.steps| - 1];
            && physical != OtherError
            && (physical.Found? ==> last.Into? && IsDir(nodes, physical.place))
            && (AtLink(nodes, cwd, path) <==> physical.Found? && physical.place + [last.name] in nodes)
            && Lstat(nodes, cwd, path) == if AtLink(nodes, cwd,
                                                    path) then There(physical.place + [last.name]) else Missing
  {
    LastElement(nodes, cwd, path, false);
    var physical := Physical(nodes, cwd, path);
    if physical.Found? && path.steps[|path.steps| - 1].Up? {
      UpIsFound(nodes, physical.place, physical.links, false);
    }
  }

  // ---- Calls ----

  /** A dangling link that a call has come to, and the directory it takes the link to be in. */
  datatype Hop = Hop(dir: Place, link: Place)

  function HopOf(nodes: Nodes, cwd: Place, path: Path): Option<Hop> {
    if OneCall(nodes, cwd, path).Again? then Some(Hop(Lexical(nodes, cwd, path).place, Lstat(nodes, cwd, path).place))
    else None
  }

  /** The path that the link stands for in that directory. */
  function Stands(nodes: Nodes, hop: Hop): Path
    requires hop.link in nodes && nodes[hop.link].Link?
  {
    LinkFrom(hop.dir, nodes[hop.link].target)
  }

  lemma NextIsHop(nodes: Nodes, cwd: Place, path: Path)
    requires HopOf(nodes, cwd, path).Some?
    ensures var hop := HopOf(nodes, cwd, path).value;
            && hop.link in nodes && nodes[hop.link].Link?
            && OneCall(nodes, cwd, path) == Again(Stands(nodes, hop))
  {
  }

  /** From the path of one call to the path of the next. */
  function Next(nodes: Nodes, cwd: Place): Path -> Option<Path> {
    path => NextOf(nodes, cwd, path)
  }

  function NextOf(nodes: Nodes, cwd: Place, path: Path): Option<Path> {
    match OneCall(nodes, cwd, path)
    case Answer(_) => None
    case Again(next) => Some(next)
  }

  function Hops(nodes: Nodes, cwd: Place): Path -> Option<Hop> {
    path => HopOf(nodes, cwd, path)
  }

  /** The path of the n-th call after this one, if there are that many. */
  function After(nodes: Nodes, cwd: Place, path: Path, n: nat): Option<Path> {
    Iterate(Next(nodes, cwd), path, n)
  }

  /** The recursion comes to an end. */
  ghost predicate Ends(nodes: Nodes, cwd: Place, path: Path) {
    exists depth: nat :: Resolve(nodes, cwd, path, depth) != TooDeep
  }

  lemma {:induction false} TooDeepExactly(nodes: Nodes, cwd: Place, path: Path, depth: nat)
    ensures Resolve(nodes, cwd, path, depth) == TooDeep <==> After(nodes, cwd, path, depth).Some?
    decreases depth
  {
    if depth > 0 {
      match OneCall(nodes, cwd, path)
      case Answer(_) =>
      case Again(next) => TooDeepExactly(nodes, cwd, next, depth - 1);
    }
  }

  /** With more room the answer is the same. */
  lemma {:induction false} ResolveMore(nodes: Nodes, cwd: Place, path: Path, depth: nat, more: nat)
    requires depth <= more && Resolve(nodes, cwd, path, depth) != TooDeep
    ensures Resolve(nodes, cwd, path, more) == Resolve(nodes, cwd, path, depth)
    decreases depth
  {
    match OneCall(nodes, cwd, path)
    case Answer(_) =>
    case Again(next) => ResolveMore(nodes, cwd, next, depth - 1, more - 1);
  }

  // ---- Finitely many hops ----

  /** All hops that a tree allows. */
  function AllHops(nodes: Nodes): set<Hop> {
    set dir <- nodes.Keys + {[]}, link <- nodes.Keys :: Hop(dir, link)
  }

  /** What a walk finds is the root or exists. */
  lemma {:induction false} FoundIsThere(nodes: Nodes, dir: Place, steps: seq<Step>, links: nat)
    requires Tree(nodes) && IsDir(nodes, dir) && links <= MAX_LINKS
    ensures var r := Follow(nodes, dir, steps, links, false);
            r.Found? ==> r.place == [] || r.place in nodes
    decreases MAX_LINKS - links, |steps|
  {
    if steps != [] {
      var rest := steps[1..];
      match steps[0]
      case Up =>
        ParentIsDir(nodes, dir);
        FoundIsThere(nodes, Parent(dir), rest, links);
      case Into(name) =>
        var here := dir + [name];
        if here in nodes {
          if nodes[here].Directory? {
            FoundIsThere(nodes, here, rest, links);
          } else if nodes[here].Link? && links < MAX_LINKS {
            var target := nodes[here].target;
            FoundIsThere(nodes, Begin(dir, target), target.steps + rest, links + 1);
          }
        }
    }
  }

  lemma HopIsPossible(nodes: Nodes, cwd: Place, path: Path)
    requires Tree(nodes) && IsDir(nodes, cwd) && HopOf(nodes, cwd, path).Some?
    ensures HopOf(nodes, cwd, path).value in AllHops(nodes)
  {
    var before := path.steps[..|path.steps| - 1];
    FoundIsThere(nodes, Begin(cwd, path), Clean(path.absolute, before), 0);
    NextIsHop(nodes, cwd, path);
    var hop := HopOf(nodes, cwd, path).value;
    assert hop.dir in nodes.Keys + {[]} && hop.link in nodes.Keys;
  }

  /** A hop determines the path of the next call, whatever path led to it. */
  lemma HopsDetermine(nodes: Nodes, cwd: Place)
    requires Tree(nodes) && IsDir(nodes, cwd)
    ensures Determines(Hops(nodes, cwd), AllHops(nodes), Next(nodes, cwd))
  {
    forall x: Path, y: Path | Hops(nodes, cwd)(x).Some? && Hops(nodes, cwd)(x) == Hops(nodes, cwd)(y)
      ensures Next(nodes, cwd)(x) == Next(nodes, cwd)(y)
    {
      NextIsHop(nodes, cwd, x);
      NextIsHop(nodes, cwd, y);
    }
    forall x: Path | Hops(nodes, cwd)(x).Some?
      ensures Hops(nodes, cwd)(x).value in AllHops(nodes)
    {
      HopIsPossible(nodes, cwd, x);
    }
  }

  /** Among the first calls, as many as there are hops and one more, two make the same hop. */
  ghost predicate RunsIntoCycle(nodes: Nodes, cwd: Place, path: Path) {
    Cycles(Next(nodes, cwd), Hops(nodes, cwd), AllHops(nodes), path)
  }

  /**
   * Over any tree and from any path, resolveDownloadPath ends if and only if the dangling links it
   * comes to, each with the directory it takes it to be in, do not run into a cycle; and if it ends,
   * it does so within as many calls as there are such pairs in the tree, and one more.
   */
  lemma EndsExactly(nodes: Nodes, cwd: Place, path: Path)
    requires Tree(nodes) && IsDir(nodes, cwd)
    ensures Ends(nodes, cwd, path) <==> !RunsIntoCycle(nodes, cwd, path)
    ensures Ends(nodes, cwd, path) <==> Resolve(nodes, cwd, path, |AllHops(nodes)| + 1) != TooDeep
  {
    HopsDetermine(nodes, cwd);
    EndlessExactly(Next(nodes, cwd), Hops(nodes, cwd), AllHops(nodes), path);
    TooDeepExactly(nodes, cwd, path, |AllHops(nodes)| + 1);
    if RunsIntoCycle(nodes, cwd, path) {
      forall depth: nat
        ensures Resolve(nodes, cwd, path, depth) == TooDeep
      {
        TooDeepExactly(nodes, cwd, path, depth);
      }
    }
  }

  // ---- Relative links ----

  ghost predicate RelativeLinks(nodes: Nodes) {
    forall p :: p in nodes && nodes[p].Link? ==> !nodes[p].target.absolute
  }

  /** From a clean path the link is taken to be in the directory that it is in. */
  lemma CleanHop(nodes: Nodes, cwd: Place, path: Path)
    requires Tree(nodes) && IsDir(nodes, cwd) && IsClean(path) && HopOf(nodes, cwd, path).Some?
    ensures HopOf(nodes, cwd, path).value.dir == Parent(HopOf(nodes, cwd, path).value.link)
  {
    DanglingEnd(nodes, cwd, path);
    CleanPrefix(path.absolute, path.steps);
    var hop, last := HopOf(nodes, cwd, path).value, path.steps[|path.steps| - 1];
    assert hop.link == hop.dir + [last.name];
  }

  lemma {:induction false} StaysClean(nodes: Nodes, cwd: Place, path: Path, n: nat)
    requires RelativeLinks(nodes) && IsClean(path) && After(nodes, cwd, path, n).Some?
    ensures IsClean(After(nodes, cwd, path, n).value)
    decreases n
  {
    if n > 0 {
      NextIsHop(nodes, cwd, path);
      var hop := HopOf(nodes, cwd, path).value;
      CleanAbsolute(StepsTo(hop.dir) + nodes[hop.link].target.steps);
      StaysClean(nodes, cwd, Stands(nodes, hop), n - 1);
    }
  }

  /**
   * When all links are relative, from a clean path each call after the first depends only on the
   * dangling link just reached: the cycle, if there is one, is a cycle of links.
   */
  lemma HopsAreLinks(nodes: Nodes, cwd: Place, path: Path, i: nat, j: nat)
    requires Tree(nodes) && IsDir(nodes, cwd) && RelativeLinks(nodes) && IsClean(path)
    requires HopAt(nodes, cwd, path, i).Some? && HopAt(nodes, cwd, path, j).Some?
    ensures HopAt(nodes, cwd, path, i).value.link == HopAt(nodes, cwd, path, j).value.link <==>
              HopAt(nodes, cwd, path, i) == HopAt(nodes, cwd, path, j)
  {
    StaysClean(nodes, cwd, path, i);
    StaysClean(nodes, cwd, path, j);
    CleanHop(nodes, cwd, After(nodes, cwd, path, i).value);
    CleanHop(nodes, cwd, After(nodes, cwd, path, j).value);
  }

  /** The hop that the n-th call makes, if it makes one. */
  function HopAt(nodes: Nodes, cwd: Place, path: Path, n: nat): Option<Hop> {
    KeyAt(Next(nodes, cwd), Hops(nodes, cwd), path, n)
  }
}
