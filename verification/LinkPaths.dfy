/**
 * Paths through symbolic links, and how resolveDownloadPath follows them (client/knowledge.go).
 */
module LinkPaths {
  import opened Basics

  /** A file name; `Part` is the name CreateTemp makes for a download of `base`. */
  datatype Name = Plain(id: nat) | Part(base: Name, random: nat)

  /** An element of a path as written: a name or `..`. */
  datatype Step = Into(name: Name) | Up

  datatype Path = Path(absolute: bool, steps: seq<Step>)

  /** A place in the directory tree: the names from the root down to it. */
  type Place = seq<Name>

  datatype Node = File(content: Text, mode: nat) | Directory(mode: nat) | Link(target: Path)

  type Nodes = map<Place, Node>

  predicate IsDir(nodes: Nodes, p: Place) {
    p == [] || (p in nodes && nodes[p].Directory?)
  }

  function Parent(p: Place): Place {
    if p == [] then [] else p[..|p| - 1]
  }

  predicate LiesInDir(nodes: Nodes, p: Place) {
    p in nodes ==> p != [] && IsDir(nodes, Parent(p))
  }

  /** A tree: whatever exists lies in a directory. */
  ghost predicate Tree(nodes: Nodes) {
    forall p: Place :: LiesInDir(nodes, p)
  }

  // ---- Following a path ----

  /** EvalSymlinks walks at most this many links. */
  const MAX_LINKS: nat := 255

  /** Where a walk ends, with the links walked so far; other errors are too many links and a path through a file. */
  datatype Followed = Found(place: Place, links: nat) | NotExist(links: nat) | OtherError

  function Begin(cwd: Place, path: Path): Place {
    if path.absolute then [] else cwd
  }

  /**
   * Follows the steps from a directory, links included. With `create` the last name may be missing,
   * as for a file that is opened to be created; without it this is filepath.EvalSymlinks.
   */
  function Follow(nodes: Nodes, dir: Place, steps: seq<Step>, links: nat, create: bool): (r: Followed)
    requires links <= MAX_LINKS
    ensures r.Found? ==> links <= r.links <= MAX_LINKS
    ensures r.NotExist? ==> links <= r.links <= MAX_LINKS
    decreases MAX_LINKS - links, |steps|
  {
    if steps == [] then Found(dir, links)
    else
      var rest := steps[1..];
      match steps[0]
      case Up => Follow(nodes, Parent(dir), rest, links, create)
      case Into(name) =>
        var here := dir + [name];
        if here !in nodes then (if create && rest == [] then Found(here, links) else NotExist(links))
        else
          match nodes[here]
          case Link(target) =>
            if links == MAX_LINKS then OtherError
            else Follow(nodes, Begin(dir, target), target.steps + rest, links + 1, create)
          case File(_, _) => if rest == [] then Found(here, links) else OtherError
          case Directory(_) => Follow(nodes, here, rest, links, create)
  }

  /** A path is followed in two parts: first up to a directory, then on from there. */
  lemma {:induction false} FollowAppend(nodes: Nodes, dir: Place, a: seq<Step>, b: seq<Step>, links: nat, create: bool)
    requires links <= MAX_LINKS && b != [] && IsDir(nodes, dir) && Tree(nodes)
    ensures var first := Follow(nodes, dir, a, links, false);
            Follow(nodes, dir, a + b, links, create)
            == if !first.Found? then first
               else if IsDir(nodes, first.place) then Follow(nodes, first.place, b, first.links, create)
               else OtherError
    decreases MAX_LINKS - links, |a|
  {
    if a == [] {
      assert a + b == b;
    } else {
      var rest := a[1..];
      assert (a + b)[0] == a[0] && (a + b)[1..] == rest + b;
      match a[0]
      case Up =>
        ParentIsDir(nodes, dir);
        FollowAppend(nodes, Parent(dir), rest, b, links, create);
      case Into(name) =>
        var here := dir + [name];
        if here in nodes {
          if nodes[here].Directory? {
            FollowAppend(nodes, here, rest, b, links, create);
          } else if nodes[here].Link? && links < MAX_LINKS {
            var target := nodes[here].target;
            Associate(target.steps, rest, b);
            FollowAppend(nodes, Begin(dir, target), target.steps + rest, b, links + 1, create);
          }
        }
    }
  }

  lemma ParentIsDir(nodes: Nodes, p: Place)
    requires Tree(nodes) && IsDir(nodes, p)
    ensures IsDir(nodes, Parent(p))
  {
    assert LiesInDir(nodes, p);
  }

  function WithLinks(r: Followed, links: nat): Followed {
    match r
    case Found(place, _) => Found(place, links)
    case NotExist(_) => NotExist(links)
    case OtherError => OtherError
  }

  /** Links walked before do not matter as long as the cap is not reached. */
  lemma {:induction false} FewerLinks(nodes: Nodes, dir: Place, steps: seq<Step>, links: nat, fewer: nat, create: bool)
    requires fewer <= links <= MAX_LINKS
    ensures var r := Follow(nodes, dir, steps, links, create);
            !r.OtherError? ==> Follow(nodes, dir, steps, fewer, create) == WithLinks(r, r.links - (links - fewer))
    decreases MAX_LINKS - links, |steps|
  {
    if steps != [] {
      var rest := steps[1..];
      match steps[0]
      case Up => FewerLinks(nodes, Parent(dir), rest, links, fewer, create);
      case Into(name) =>
        var here := dir + [name];
        if here in nodes {
          if nodes[here].Directory? {
            FewerLinks(nodes, here, rest, links, fewer, create);
          } else if nodes[here].Link? && links < MAX_LINKS {
            var target := nodes[here].target;
            FewerLinks(nodes, Begin(dir, target), target.steps + rest, links + 1, fewer + 1, create);
          }
        }
    }
  }

  /** What exists is found for creation too, and only a missing end can make the difference. */
  lemma {:induction false} CreateFinds(nodes: Nodes, dir: Place, steps: seq<Step>, links: nat)
    requires links <= MAX_LINKS
    ensures var r, c := Follow(nodes, dir, steps, links, false), Follow(nodes, dir, steps, links, true);
            && (r.NotExist? ==> c == r || (c.Found? && c.links == r.links && c.place !in nodes))
            && (!r.NotExist? ==> c == r)
    decreases MAX_LINKS - links, |steps|
  {
    if steps != [] {
      var rest := steps[1..];
      match steps[0]
      case Up => CreateFinds(nodes, Parent(dir), rest, links);
      case Into(name) =>
        var here := dir + [name];
        if here in nodes {
          if nodes[here].Directory? {
            CreateFinds(nodes, here, rest, links);
          } else if nodes[here].Link? && links < MAX_LINKS {
            CreateFinds(nodes, Begin(dir, nodes[here].target), nodes[here].target.steps + rest, links + 1);
          }
        }
    }
  }

  /** What opening for creation gives is no link. */
  lemma {:induction false} CreatedIsNoLink(nodes: Nodes, dir: Place, steps: seq<Step>, links: nat)
    requires Tree(nodes) && IsDir(nodes, dir) && links <= MAX_LINKS
    ensures var r := Follow(nodes, dir, steps, links, true);
            r.Found? ==> r.place !in nodes || !nodes[r.place].Link?
    decreases MAX_LINKS - links, |steps|
  {
    assert LiesInDir(nodes, dir);
    if steps != [] {
      var rest := steps[1..];
      match steps[0]
      case Up =>
        ParentIsDir(nodes, dir);
        CreatedIsNoLink(nodes, Parent(dir), rest, links);
      case Into(name) =>
        var here := dir + [name];
        if here in nodes {
          if nodes[here].Directory? {
            CreatedIsNoLink(nodes, here, rest, links);
          } else if nodes[here].Link? && links < MAX_LINKS {
            var target := nodes[here].target;
            CreatedIsNoLink(nodes, Begin(dir, target), target.steps + rest, links + 1);
          }
        }
    }
  }

  // ---- Lexical cleaning ----

  /** filepath.Clean: a name and the `..` after it cancel, whatever the name stands for. */
  function Clean(absolute: bool, steps: seq<Step>): (c: seq<Step>)
    ensures |c| <= |steps|
  {
    if steps == [] then []
    else
      var c, last := Clean(absolute, steps[..|steps| - 1]), steps[|steps| - 1];
      if last.Into? then c + [last]
      else if c != [] && c[|c| - 1].Into? then c[..|c| - 1]
      else if absolute then c
      else c + [Up]
  }

  predicate Stays(absolute: bool, steps: seq<Step>, i: nat)
    requires i < |steps|
  {
    steps[i].Up? ==> !absolute && (i == 0 || steps[i - 1].Up?)
  }

  /** Nothing to cancel: a `..` comes only at the beginning, and not in an absolute path. */
  predicate NothingToCancel(absolute: bool, steps: seq<Step>) {
    forall i: nat :: i < |steps| ==> Stays(absolute, steps, i)
  }

  /** The path is written without anything to cancel. */
  predicate IsClean(path: Path) {
    NothingToCancel(path.absolute, path.steps)
  }

  /** Such paths are exactly those that filepath.Clean leaves as they are. */
  lemma {:induction false} CleanStays(absolute: bool, steps: seq<Step>)
    ensures Clean(absolute, steps) == steps <==> NothingToCancel(absolute, steps)
    decreases |steps|
  {
    if steps != [] {
      var before, last := steps[..|steps| - 1], steps[|steps| - 1];
      assert steps == before + [last];
      CleanStays(absolute, before);
      CleanSnoc(absolute, before, last);
      NothingToCancelSnoc(absolute, before, last);
    }
  }

  lemma NothingToCancelSnoc(absolute: bool, before: seq<Step>, last: Step)
    ensures NothingToCancel(absolute, before + [last])
            <==> NothingToCancel(absolute, before)
                 && (last.Up? ==> !absolute && (before == [] || before[|before| - 1].Up?))
  {
    var steps := before + [last];
    forall i: nat | i < |before|
      ensures Stays(absolute, steps, i) == Stays(absolute, before, i)
    {
    }
    assert Stays(absolute, steps, |before|) == (last.Up? ==> !absolute && (before == [] || before[|before| - 1].Up?));
    if NothingToCancel(absolute, steps) {
      forall i: nat | i < |before| ensures Stays(absolute, before, i) {
        assert Stays(absolute, steps, i);
      }
    }
  }

  predicate CleanLinks(nodes: Nodes) {
    forall p :: p in nodes && nodes[p].Link? ==> IsClean(nodes[p].target)
  }

  predicate AllInto(steps: seq<Step>) {
    forall i :: 0 <= i < |steps| ==> steps[i].Into?
  }

  predicate AllUp(steps: seq<Step>) {
    forall i :: 0 <= i < |steps| ==> steps[i].Up?
  }

  lemma CleanPrefix(absolute: bool, steps: seq<Step>)
    requires steps != [] && NothingToCancel(absolute, steps)
    ensures NothingToCancel(absolute, steps[..|steps| - 1])
    ensures Clean(absolute, steps[..|steps| - 1]) == steps[..|steps| - 1]
  {
    var before := steps[..|steps| - 1];
    assert steps == before + [steps[|steps| - 1]];
    NothingToCancelSnoc(absolute, before, steps[|steps| - 1]);
    CleanStays(absolute, before);
  }

  lemma {:induction false} CleanAbsolute(steps: seq<Step>)
    ensures AllInto(Clean(true, steps))
  {
    if steps != [] {
      CleanAbsolute(steps[..|steps| - 1]);
    }
  }

  lemma {:induction false} AllIntoIsClean(absolute: bool, steps: seq<Step>)
    requires AllInto(steps)
    ensures Clean(absolute, steps) == steps
  {
    if steps != [] {
      AllIntoIsClean(absolute, steps[..|steps| - 1]);
      assert steps == steps[..|steps| - 1] + [steps[|steps| - 1]];
    }
  }

  /** A clean path that ends in `..` has nothing else. */
  lemma {:induction false} CleanEndsInUp(absolute: bool, steps: seq<Step>)
    requires steps != [] && NothingToCancel(absolute, steps) && steps[|steps| - 1].Up?
    ensures AllUp(steps)
  {
    var before := steps[..|steps| - 1];
    CleanPrefix(absolute, steps);
    assert steps == before + [Up];
    if before != [] {
      assert Stays(absolute, steps, |before|);
      assert before[|before| - 1].Up?;
      CleanEndsInUp(absolute, before);
    }
  }

  // ---- Places as paths ----

  function StepsTo(p: Place): (steps: seq<Step>)
    ensures |steps| == |p| && AllInto(steps)
  {
    seq(|p|, i requires 0 <= i < |p| => Into(p[i]))
  }

  /** A real directory is found where it is, without walking a link. */
  lemma {:induction false} RealDirFound(nodes: Nodes, p: Place, links: nat)
    requires Tree(nodes) && IsDir(nodes, p) && links <= MAX_LINKS
    ensures Follow(nodes, [], StepsTo(p), links, false) == Found(p, links)
    decreases |p|
  {
    if p != [] {
      var q, name := Parent(p), p[|p| - 1];
      assert StepsTo(p) == StepsTo(q) + [Into(name)];
      ParentIsDir(nodes, p);
      RealDirFound(nodes, q, links);
      FollowAppend(nodes, [], StepsTo(q), [Into(name)], links, false);
      assert q + [name] == p && [Into(name)][1..] == [];
    }
  }

  /** p without its last n names. */
  function Above(p: Place, n: nat): Place
    decreases n
  {
    if n == 0 then p else Above(Parent(p), n - 1)
  }

  lemma {:induction false} FollowUps(nodes: Nodes, dir: Place, steps: seq<Step>, links: nat, create: bool)
    requires AllUp(steps) && links <= MAX_LINKS
    ensures Follow(nodes, dir, steps, links, create) == Found(Above(dir, |steps|), links)
    decreases |steps|
  {
    if steps != [] {
      FollowUps(nodes, Parent(dir), steps[1..], links, create);
    }
  }

  lemma {:induction false} AboveIsDir(nodes: Nodes, p: Place, n: nat)
    requires Tree(nodes) && IsDir(nodes, p)
    ensures IsDir(nodes, Above(p, n))
    decreases n
  {
    if n > 0 {
      ParentIsDir(nodes, p);
      AboveIsDir(nodes, Parent(p), n - 1);
    }
  }

  lemma CleanSnoc(absolute: bool, steps: seq<Step>, last: Step)
    ensures var c := Clean(absolute, steps);
            Clean(absolute, steps + [last])
            == if last.Into? then c + [last]
               else if c != [] && c[|c| - 1].Into? then c[..|c| - 1]
               else if absolute then c
               else c + [Up]
  {
    assert (steps + [last])[..|steps|] == steps;
  }

  lemma StepsToParent(p: Place)
    requires p != []
    ensures StepsTo(p)[..|p| - 1] == StepsTo(Parent(p)) && StepsTo(p)[|p| - 1].Into?
  {
  }

  /** Cleaning a place followed by `..`s goes up from the place. */
  lemma {:induction false} CleanUps(p: Place, ups: seq<Step>)
    requires AllUp(ups)
    ensures Clean(true, StepsTo(p) + ups) == StepsTo(Above(p, |ups|))
    decreases |ups|
  {
    if ups == [] {
      assert StepsTo(p) + ups == StepsTo(p);
      AllIntoIsClean(true, StepsTo(p));
    } else {
      var before := ups[..|ups| - 1];
      CleanUps(p, before);
      AboveSnoc(p, |before|);
      Associate(StepsTo(p), before, [Up]);
      assert ups == before + [Up];
      CleanSnoc(true, StepsTo(p) + before, Up);
      var q := Above(p, |before|);
      if q != [] {
        StepsToParent(q);
      }
    }
  }

  lemma {:induction false} AboveSnoc(p: Place, n: nat)
    ensures Above(p, n + 1) == Parent(Above(p, n))
    decreases n
  {
    if n > 0 {
      AboveSnoc(Parent(p), n - 1);
    }
  }

  /** filepath.Join of a real directory and a clean relative path leads where the path leads from the directory. */
  lemma {:induction false} JoinFollows(nodes: Nodes, p: Place, steps: seq<Step>, links: nat, create: bool)
    requires Tree(nodes) && IsDir(nodes, p) && NothingToCancel(false, steps) && links <= MAX_LINKS
    ensures Follow(nodes, [], Clean(true, StepsTo(p) + steps), links, create) == Follow(nodes, p, steps, links, create)
    decreases |steps|
  {
    if AllUp(steps) {
      JoinUps(nodes, p, steps, links, create);
    } else {
      var before, last := steps[..|steps| - 1], steps[|steps| - 1];
      if last.Up? {
        CleanEndsInUp(false, steps);
      }
      CleanPrefix(false, steps);
      JoinFollows(nodes, p, before, links, false);
      OneMoreName(nodes, p, before, last, links, create);
      assert steps == before + [last];
    }
  }

  lemma JoinUps(nodes: Nodes, p: Place, ups: seq<Step>, links: nat, create: bool)
    requires Tree(nodes) && IsDir(nodes, p) && AllUp(ups) && links <= MAX_LINKS
    ensures Follow(nodes, [], Clean(true, StepsTo(p) + ups), links, create) == Follow(nodes, p, ups, links, create)
  {
    var q := Above(p, |ups|);
    CleanUps(p, ups);
    FollowUps(nodes, p, ups, links, create);
    AboveIsDir(nodes, p, |ups|);
    RealDirFound(nodes, q, links);
    CreateFinds(nodes, [], StepsTo(q), links);
  }

  lemma OneMoreName(nodes: Nodes, p: Place, before: seq<Step>, last: Step, links: nat, create: bool)
    requires Tree(nodes) && IsDir(nodes, p) && last.Into? && links <= MAX_LINKS
    requires Follow(nodes, [], Clean(true, StepsTo(p) + before), links, false) == Follow(nodes, p, before, links, false)
    ensures Follow(nodes, [], Clean(true, StepsTo(p) + (before + [last])), links, create)
         == Follow(nodes, p, before + [last], links, create)
  {
    var c := Clean(true, StepsTo(p) + before);
    Associate(StepsTo(p), before, [last]);
    CleanSnoc(true, StepsTo(p) + before, last);
    FollowAppend(nodes, p, before, [last], links, create);
    FollowAppend(nodes, [], c, [last], links, create);
  }

  // ---- resolveDownloadPath ----

  /** What Lstat finds at the end of a path. */
  datatype Seen = Missing | Failed | There(place: Place)

  function Lstat(nodes: Nodes, cwd: Place, path: Path): Seen
    requires path.steps != []
  {
    var n := |path.steps| - 1;
    match Follow(nodes, Begin(cwd, path), path.steps[..n], 0, false)
    case NotExist(_) => Missing
    case OtherError => Failed
    case Found(dir, _) =>
      if !IsDir(nodes, dir) then Failed
      else if path.steps[n].Up? then There(Parent(dir))
      else if dir + [path.steps[n].name] in nodes then There(dir + [path.steps[n].name])
      else Missing
  }

  /** filepath.Join of a place and the last element of a path. */
  function Child(dir: Place, last: Step): Place {
    if last.Up? then Parent(dir) else dir + [last.name]
  }

  /** The destination, an error, or more recursive calls than there is room for. */
  datatype Resolved = Destination(place: Place) | Error | TooDeep

  /** What one call comes to: an answer, or another call on the path that a link stands for. */
  datatype Call = Answer(r: Resolved) | Again(path: Path)

  function OneCall(nodes: Nodes, cwd: Place, path: Path): Call {
    match Follow(nodes, Begin(cwd, path), path.steps, 0, false)
    case Found(place, _) => Answer(Destination(place))
    case OtherError => Answer(Error)
    case NotExist(_) =>
      assert path.steps != [];
      var n := |path.steps| - 1;
      match Follow(nodes, Begin(cwd, path), Clean(path.absolute, path.steps[..n]), 0, false)
      case NotExist(_) => Answer(Error)
      case OtherError => Answer(Error)
      case Found(parent, _) =>
        match Lstat(nodes, cwd, path)
        case Missing => Answer(Destination(Child(parent, path.steps[n])))
        case Failed => Answer(Error)
        case There(place) =>
          if place !in nodes || !nodes[place].Link? then Answer(Destination(Child(parent, path.steps[n])))
          else Again(LinkFrom(parent, nodes[place].target))
  }

  /** With room for so many recursive calls: follow links, including links to a file that does not exist yet. */
  function Resolve(nodes: Nodes, cwd: Place, path: Path, depth: nat): Resolved
    decreases depth
  {
    if depth == 0 then TooDeep
    else
      match OneCall(nodes, cwd, path)
      case Answer(r) => r
      case Again(next) => Resolve(nodes, cwd, next, depth - 1)
  }

  /** The path that a link in this directory stands for. */
  function LinkFrom(parent: Place, target: Path): Path {
    if target.absolute then target else Path(true, Clean(true, StepsTo(parent) + target.steps))
  }

  /** The file that opening the path for creation would give. */
  function Creates(nodes: Nodes, cwd: Place, path: Path): Followed {
    Follow(nodes, Begin(cwd, path), path.steps, 0, true)
  }

  lemma LinkIsClean(parent: Place, target: Path)
    requires IsClean(target)
    ensures IsClean(LinkFrom(parent, target))
  {
    if !target.absolute {
      CleanAbsolute(StepsTo(parent) + target.steps);
    }
  }

  lemma LinkFollows(nodes: Nodes, cwd: Place, parent: Place, target: Path, links: nat, create: bool)
    requires Tree(nodes) && IsDir(nodes, parent) && IsClean(target) && links <= MAX_LINKS
    ensures var path := LinkFrom(parent, target);
            Follow(nodes, Begin(cwd, path), path.steps, links, create)
            == Follow(nodes, Begin(parent, target), target.steps, links, create)
  {
    if !target.absolute {
      JoinFollows(nodes, parent, target.steps, links, create);
    }
  }

  function AsResolved(c: Followed): Resolved {
    if c.Found? then Destination(c.place) else Error
  }

  /** A clean path that leads to nothing ends in a name, in a directory that exists or not. */
  lemma MissingEnd(nodes: Nodes, cwd: Place, path: Path)
    requires Tree(nodes) && IsDir(nodes, Begin(cwd, path)) && IsClean(path)
    requires Follow(nodes, Begin(cwd, path), path.steps, 0, false).NotExist?
    ensures path.steps != [] && path.steps[|path.steps| - 1].Into?
    ensures var n := |path.steps| - 1;
            var before, last := path.steps[..n], path.steps[n];
            var first := Follow(nodes, Begin(cwd, path), before, 0, false);
            && Clean(path.absolute, before) == before
            && (first.NotExist? || (first.Found? && IsDir(nodes, first.place)))
            && forall create :: Follow(nodes, Begin(cwd, path), path.steps, 0, create)
                                == if !first.Found? then first
                                   else Follow(nodes, first.place, [last], first.links, create)
  {
    var n := |path.steps| - 1;
    if path.steps[n].Up? {
      CleanEndsInUp(path.absolute, path.steps);
      FollowUps(nodes, Begin(cwd, path), path.steps, 0, false);
    }
    CleanPrefix(path.absolute, path.steps);
    assert path.steps == path.steps[..n] + [path.steps[n]];
    forall create
      ensures var first := Follow(nodes, Begin(cwd, path), path.steps[..n], 0, false);
              Follow(nodes, Begin(cwd, path), path.steps, 0, create)
              == if !first.Found? then first
                 else if IsDir(nodes, first.place) then Follow(nodes, first.place, [path.steps[n]], first.links, create)
                 else OtherError
    {
      FollowAppend(nodes, Begin(cwd, path), path.steps[..n], [path.steps[n]], 0, create);
    }
  }

  /** Following a link is following the path that stands for it, with one link more. */
  lemma ThroughLink(nodes: Nodes, cwd: Place, dir: Place, name: Name, links: nat, create: bool)
    requires Tree(nodes) && CleanLinks(nodes) && IsDir(nodes, dir) && links < MAX_LINKS
    requires dir + [name] in nodes && nodes[dir + [name]].Link?
    ensures var path := LinkFrom(dir, nodes[dir + [name]].target);
            Follow(nodes, dir, [Into(name)], links, create)
            == Follow(nodes, Begin(cwd, path), path.steps, links + 1, create)
  {
    var target := nodes[dir + [name]].target;
    assert target.steps + [] == target.steps && [Into(name)][1..] == [];
    LinkFollows(nodes, cwd, dir, target, links + 1, create);
  }

  /** A walk that finds something missing does so with no links walked before as well, and creates the same. */
  lemma FromTheStart(nodes: Nodes, dir: Place, steps: seq<Step>, links: nat)
    requires 0 < links <= MAX_LINKS && Follow(nodes, dir, steps, links, false).NotExist?
    ensures Follow(nodes, dir, steps, 0, false).NotExist?
    ensures Follow(nodes, dir, steps, 0, false).links < Follow(nodes, dir, steps, links, false).links
    ensures AsResolved(Follow(nodes, dir, steps, 0, true)) == AsResolved(Follow(nodes, dir, steps, links, true))
  {
    FewerLinks(nodes, dir, steps, links, 0, false);
    FewerLinks(nodes, dir, steps, links, 0, true);
    CreateFinds(nodes, dir, steps, links);
  }

  /** Following a dangling link is following the path that stands for it, with fewer links to walk. */
  lemma DanglingLink(nodes: Nodes, cwd: Place, dir: Place, name: Name, links: nat, path: Path)
    requires Tree(nodes) && CleanLinks(nodes) && IsDir(nodes, dir)
    requires links < MAX_LINKS && dir + [name] in nodes && nodes[dir + [name]].Link?
    requires Follow(nodes, dir, [Into(name)], links, false).NotExist?
    requires path == LinkFrom(dir, nodes[dir + [name]].target)
    ensures IsClean(path)
    ensures var w := Follow(nodes, dir, [Into(name)], links, false);
            var w' := Follow(nodes, Begin(cwd, path), path.steps, 0, false);
            w'.NotExist? && w'.links < w.links
    ensures AsResolved(Creates(nodes, cwd, path)) == AsResolved(Follow(nodes, dir, [Into(name)], links, true))
  {
    LinkIsClean(dir, nodes[dir + [name]].target);
    ThroughLink(nodes, cwd, dir, name, links, false);
    ThroughLink(nodes, cwd, dir, name, links, true);
    FromTheStart(nodes, Begin(cwd, path), path.steps, links + 1);
  }

  /**
   * With clean paths, resolveDownloadPath ends within as many calls as there are links to walk, and
   * gives exactly the file that opening the path for creation would give: the last target of the
   * links, existing or not, or an error for a cycle, too many links or a missing directory.
   */
  lemma {:induction false} ResolveFollows(nodes: Nodes, cwd: Place, path: Path, depth: nat)
    requires Tree(nodes) && IsDir(nodes, cwd) && CleanLinks(nodes) && IsClean(path)
    requires var w := Follow(nodes, Begin(cwd, path), path.steps, 0, false);
             depth > if w.NotExist? then w.links else 0
    ensures Resolve(nodes, cwd, path, depth) == AsResolved(Creates(nodes, cwd, path))
    decreases depth
  {
    if !Follow(nodes, Begin(cwd, path), path.steps, 0, false).NotExist? {
      ResolveExisting(nodes, cwd, path, depth);
    } else {
      MissingEnd(nodes, cwd, path);
      if Follow(nodes, Begin(cwd, path), path.steps[..|path.steps| - 1], 0, false).NotExist? {
        NoDirectory(nodes, cwd, path, depth);
      } else {
        var next := ResolveOnce(nodes, cwd, path, depth);
        if next.Some? {
          ResolveFollows(nodes, cwd, next.value, depth - 1);
        }
      }
    }
  }

  /** One call on a path that ends in a missing name or a dangling link: done, or another call on a shorter walk. */
  lemma ResolveOnce(nodes: Nodes, cwd: Place, path: Path, depth: nat) returns (next: Option<Path>)
    requires Tree(nodes) && IsDir(nodes, cwd) && CleanLinks(nodes) && IsClean(path) && depth > 0
    requires var w := Follow(nodes, Begin(cwd, path), path.steps, 0, false);
             w.NotExist? && depth > w.links
    requires path.steps != [] && Follow(nodes, Begin(cwd, path), path.steps[..|path.steps| - 1], 0, false).Found?
    ensures next.None? ==> Resolve(nodes, cwd, path, depth) == AsResolved(Creates(nodes, cwd, path))
    ensures next.Some? ==>
              && IsClean(next.value) && Resolve(nodes, cwd, path, depth) == Resolve(nodes, cwd, next.value, depth - 1)
              && AsResolved(Creates(nodes, cwd, path)) == AsResolved(Creates(nodes, cwd, next.value))
              && var w' := Follow(nodes, Begin(cwd, next.value), next.value.steps, 0, false);
                 w'.NotExist? && depth - 1 > w'.links
  {
    MissingEnd(nodes, cwd, path);
    var n := |path.steps| - 1;
    var first, name := Follow(nodes, Begin(cwd, path), path.steps[..n], 0, false), path.steps[n].name;
    assert [path.steps[n]] == [Into(name)];
    EndOfPath(nodes, cwd, path, first);
    if first.place + [name] in nodes {
      var link := LinkFrom(first.place, nodes[first.place + [name]].target);
      DanglingLink(nodes, cwd, first.place, name, first.links, link);
      next := Some(link);
    } else {
      next := None;
    }
  }

  /** One call on a path whose directory does not exist. */
  lemma NoDirectory(nodes: Nodes, cwd: Place, path: Path, depth: nat)
    requires depth > 0 && path.steps != [] && Follow(nodes, Begin(cwd, path), path.steps, 0, false).NotExist?
    requires var before := path.steps[..|path.steps| - 1];
             Clean(path.absolute, before) == before && Follow(nodes, Begin(cwd, path), before, 0, false).NotExist?
    ensures Resolve(nodes, cwd, path, depth) == Error
  {
  }

  /** One call on a path that ends in a name in this directory, which is missing or a dangling link. */
  lemma EndOfPath(nodes: Nodes, cwd: Place, path: Path, first: Followed)
    requires path.steps != [] && path.steps[|path.steps| - 1].Into?
    requires first.Found? && IsDir(nodes, first.place)
    requires var n := |path.steps| - 1;
             && first == Follow(nodes, Begin(cwd, path), path.steps[..n], 0, false)
             && Clean(path.absolute, path.steps[..n]) == path.steps[..n]
             && Follow(nodes, Begin(cwd, path), path.steps, 0, false).NotExist?
             && Follow(nodes, first.place, [path.steps[n]], first.links, false).NotExist?
    ensures var here := first.place + [path.steps[|path.steps| - 1].name];
            && (here in nodes ==> nodes[here].Link? && first.links < MAX_LINKS)
            && (here !in nodes ==>
                  Follow(nodes, first.place, [path.steps[|path.steps| - 1]], first.links, true)
                  == Found(here, first.links))
            && OneCall(nodes, cwd, path)
               == if here in nodes then Again(LinkFrom(first.place, nodes[here].target)) else Answer(Destination(here))
  {
    OneName(nodes, first.place, path.steps[|path.steps| - 1].name, first.links);
  }

  lemma OneName(nodes: Nodes, dir: Place, name: Name, links: nat)
    requires links <= MAX_LINKS && Follow(nodes, dir, [Into(name)], links, false).NotExist?
    ensures dir + [name] in nodes ==> nodes[dir + [name]].Link? && links < MAX_LINKS
    ensures dir + [name] !in nodes ==> Follow(nodes, dir, [Into(name)], links, true) == Found(dir + [name], links)
  {
    assert [Into(name)][1..] == [];
  }

  /** Any path as long as it exists: then nothing is cleaned, and the walk is the whole resolution. */
  lemma ResolveExisting(nodes: Nodes, cwd: Place, path: Path, depth: nat)
    requires depth > 0 && !Follow(nodes, Begin(cwd, path), path.steps, 0, false).NotExist?
    ensures Resolve(nodes, cwd, path, depth) == AsResolved(Creates(nodes, cwd, path))
  {
    CreateFinds(nodes, Begin(cwd, path), path.steps, 0);
  }

  /** When all links are clean, resolution ends whatever path it starts from. */
  lemma ResolveEnds(nodes: Nodes, cwd: Place, path: Path, depth: nat)
    requires Tree(nodes) && IsDir(nodes, cwd) && CleanLinks(nodes) && depth > MAX_LINKS + 1
    ensures Resolve(nodes, cwd, path, depth) != TooDeep
  {
    if Resolve(nodes, cwd, path, depth) == TooDeep {
      var next := NextCall(nodes, cwd, path, depth);
      CleanEnds(nodes, cwd, next, depth - 1);
    }
  }

  lemma NextCall(nodes: Nodes, cwd: Place, path: Path, depth: nat) returns (next: Path)
    requires CleanLinks(nodes) && depth > 0 && Resolve(nodes, cwd, path, depth) == TooDeep
    ensures IsClean(next) && Resolve(nodes, cwd, next, depth - 1) == TooDeep
  {
    next := OneCall(nodes, cwd, path).path;
    AgainIsClean(nodes, cwd, path);
  }

  lemma CleanEnds(nodes: Nodes, cwd: Place, path: Path, depth: nat)
    requires Tree(nodes) && IsDir(nodes, cwd) && CleanLinks(nodes) && IsClean(path) && depth > MAX_LINKS
    ensures Resolve(nodes, cwd, path, depth) != TooDeep
  {
    ResolveFollows(nodes, cwd, path, depth);
  }

  lemma AgainIsClean(nodes: Nodes, cwd: Place, path: Path)
    requires CleanLinks(nodes) && OneCall(nodes, cwd, path).Again?
    ensures IsClean(OneCall(nodes, cwd, path).path)
  {
    var n := |path.steps| - 1;
    var parent := Follow(nodes, Begin(cwd, path), Clean(path.absolute, path.steps[..n]), 0, false).place;
    LinkIsClean(parent, nodes[Lstat(nodes, cwd, path).place].target);
  }
}
