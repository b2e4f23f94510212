/** When resolveDownloadPath gives the file that opening the path for creation would give, and when not. */
module LinkAnswers {
  import opened Iteration
  import opened LinkPaths
  import opened LinkChains
  import opened LinkLoops

  // ---- One call ----

  predicate IsLink(nodes: Nodes, place: Place) {
    place in nodes && nodes[place].Link?
  }

  /** The cleaned directory is the directory, or neither exists. */
  predicate SameDirectory(nodes: Nodes, cwd: Place, path: Path)
    requires path.steps != []
  {
    var lexical, physical := Lexical(nodes, cwd, path), Physical(nodes, cwd, path);
    if physical.Found? then lexical.Found? && lexical.place == physical.place else !lexical.Found?
  }

  /**
   * Cleaning does no harm in this call, in terms of the tree alone. A path that exists is not cleaned.
   * Of a missing name the directory must stay the same. Of a dangling link the target, taken from the
   * cleaned directory and cleaned, must give the same file as the target itself.
   */
  predicate Harmless(nodes: Nodes, cwd: Place, path: Path) {
    Dangles(nodes, cwd, path) && path.steps != [] ==>
      if AtLink(nodes, cwd, path) then LinkAgrees(nodes, cwd, path) else SameDirectory(nodes, cwd, path)
  }

  predicate LinkAgrees(nodes: Nodes, cwd: Place, path: Path)
    requires AtLink(nodes, cwd, path)
  {
    var link, lexical := Lstat(nodes, cwd, path).place, Lexical(nodes, cwd, path);
    link in nodes && nodes[link].Link? &&
    var target := nodes[link].target;
    var given := AsResolved(Follow(nodes, Begin(Parent(link), target), target.steps, 0, true));
    if lexical.Found? then AsResolved(Creates(nodes, cwd, LinkFrom(lexical.place, target))) == given
    else given == Error
  }

  /** The call answers rightly, or passes on a path that leads where this one leads. */
  predicate RightHere(nodes: Nodes, cwd: Place, path: Path) {
    match OneCall(nodes, cwd, path)
    case Answer(r) => r == AsResolved(Creates(nodes, cwd, path))
    case Again(next) => AsResolved(Creates(nodes, cwd, next)) == AsResolved(Creates(nodes, cwd, path))
  }

  /** A path whose directory or last name is missing: the call is right exactly when the directory stays the same. */
  lemma MissingExactly(nodes: Nodes, cwd: Place, path: Path)
    requires Tree(nodes) && IsDir(nodes, cwd) && Dangles(nodes, cwd, path) && !AtLink(nodes, cwd, path)
    ensures path.steps != [] && OneCall(nodes, cwd, path).Answer?
    ensures OneCall(nodes, cwd, path) == Answer(AsResolved(Creates(nodes, cwd, path))) <==> SameDirectory(nodes, cwd,
                                                                                                          path)
  {
    DanglingEnd(nodes, cwd, path);
    LastElement(nodes, cwd, path, false);
    LastElement(nodes, cwd, path, true);
    var physical, lexical, last := Physical(nodes, cwd, path), Lexical(nodes, cwd, path), path.steps[|path.steps| - 1];
    if physical.Found? {
      OneName(nodes, physical.place, last.name, physical.links);
      if lexical.Found? {
        assert (physical.place + [last.name])[..|physical.place|] == physical.place;
        assert (lexical.place + [last.name])[..|lexical.place|] == lexical.place;
      }
    }
  }

  /** A path that ends in a dangling link gives the file that the link's target gives. */
  lemma LinkGives(nodes: Nodes, cwd: Place, path: Path)
    requires Tree(nodes) && IsDir(nodes, cwd) && Dangles(nodes, cwd, path) && AtLink(nodes, cwd, path)
    ensures var link := Lstat(nodes, cwd, path).place;
            && link in nodes && nodes[link].Link?
            && var target := nodes[link].target;
               AsResolved(Creates(nodes, cwd, path))
               == AsResolved(Follow(nodes, Begin(Parent(link), target), target.steps, 0, true))
  {
    DanglingEnd(nodes, cwd, path);
    LastElement(nodes, cwd, path, false);
    LastElement(nodes, cwd, path, true);
    var physical, name := Physical(nodes, cwd, path), path.steps[|path.steps| - 1].name;
    assert [path.steps[|path.steps| - 1]] == [Into(name)];
    DanglingName(nodes, physical.place, name, physical.links);
  }

  lemma DanglingName(nodes: Nodes, dir: Place, name: Name, links: nat)
    requires links <= MAX_LINKS && dir + [name] in nodes && Follow(nodes, dir, [Into(name)], links, false).NotExist?
    ensures nodes[dir + [name]].Link? && Parent(dir + [name]) == dir
    ensures var target := nodes[dir + [name]].target;
            AsResolved(Follow(nodes, dir, [Into(name)], links, true))
            == AsResolved(Follow(nodes, Begin(dir, target), target.steps, 0, true))
  {
    OneName(nodes, dir, name, links);
    var target := nodes[dir + [name]].target;
    assert target.steps + [] == target.steps && [Into(name)][1..] == [];
    FromTheStart(nodes, Begin(dir, target), target.steps, links + 1);
  }

  /** A path that ends in a dangling link: what the call does. */
  lemma LinkExactly(nodes: Nodes, cwd: Place, path: Path)
    requires Tree(nodes) && IsDir(nodes, cwd) && Dangles(nodes, cwd, path) && AtLink(nodes, cwd, path)
    ensures RightHere(nodes, cwd, path) <==> LinkAgrees(nodes, cwd, path)
  {
    LinkGives(nodes, cwd, path);
  }

  /**
   * In any tree and for any path, a call of resolveDownloadPath is right, in its answer or in the path
   * it passes on, if and only if cleaning is harmless there.
   */
  lemma RightHereExactly(nodes: Nodes, cwd: Place, path: Path)
    requires Tree(nodes) && IsDir(nodes, cwd)
    ensures RightHere(nodes, cwd, path) <==> Harmless(nodes, cwd, path)
  {
    if !Dangles(nodes, cwd, path) {
      CreateFinds(nodes, Begin(cwd, path), path.steps, 0);
    } else if AtLink(nodes, cwd, path) {
      LinkExactly(nodes, cwd, path);
    } else {
      MissingExactly(nodes, cwd, path);
    }
  }

  // ---- The whole resolution ----

  /** With room enough, the path resolves to the file that opening it for creation would give. */
  ghost predicate Right(nodes: Nodes, cwd: Place, path: Path) {
    exists depth: nat :: Resolve(nodes, cwd, path, depth) == AsResolved(Creates(nodes, cwd, path))
  }

  lemma ResolveIs(nodes: Nodes, cwd: Place, path: Path, depth: nat)
    requires depth > 0
    ensures Resolve(nodes, cwd, path, depth)
         == match OneCall(nodes, cwd, path)
            case Answer(r) => r
            case Again(next) => Resolve(nodes, cwd, next, depth - 1)
  {
  }

  /** Once the path that is passed on resolves rightly, this one does exactly when its own call is right. */
  lemma RightStep(nodes: Nodes, cwd: Place, path: Path)
    requires match OneCall(nodes, cwd, path)
             case Answer(_) => true
             case Again(next) => Right(nodes, cwd, next)
    ensures Right(nodes, cwd, path) <==> RightHere(nodes, cwd, path)
  {
    match OneCall(nodes, cwd, path)
    case Answer(_) =>
      ResolveIs(nodes, cwd, path, 1);
      if Right(nodes, cwd, path) {
        var depth: nat :| Resolve(nodes, cwd, path, depth) == AsResolved(Creates(nodes, cwd, path));
        ResolveIs(nodes, cwd, path, depth);
      }
    case Again(next) =>
      var d: nat :| Resolve(nodes, cwd, next, d) == AsResolved(Creates(nodes, cwd, next));
      ResolveIs(nodes, cwd, path, d + 1);
      if Right(nodes, cwd, path) {
        var depth: nat :| Resolve(nodes, cwd, path, depth) == AsResolved(Creates(nodes, cwd, path));
        SameAnswer(nodes, cwd, path, depth, d + 1);
      }
  }

  lemma SameAnswer(nodes: Nodes, cwd: Place, path: Path, d: nat, e: nat)
    requires Resolve(nodes, cwd, path, d) != TooDeep && Resolve(nodes, cwd, path, e) != TooDeep
    ensures Resolve(nodes, cwd, path, d) == Resolve(nodes, cwd, path, e)
  {
    if d <= e {
      ResolveMore(nodes, cwd, path, d, e);
    } else {
      ResolveMore(nodes, cwd, path, e, d);
    }
  }

  // ---- All paths on the way ----

  predicate HarmlessAt(nodes: Nodes, cwd: Place, path: Path, n: nat) {
    After(nodes, cwd, path, n).Some? ==> Harmless(nodes, cwd, After(nodes, cwd, path, n).value)
  }

  /** Cleaning is harmless in every call that the path leads to. */
  ghost predicate HarmlessAlong(nodes: Nodes, cwd: Place, path: Path) {
    forall n: nat :: HarmlessAt(nodes, cwd, path, n)
  }

  ghost predicate RightAt(nodes: Nodes, cwd: Place, path: Path, n: nat) {
    After(nodes, cwd, path, n).Some? ==> Right(nodes, cwd, After(nodes, cwd, path, n).value)
  }

  /** The path, and every path that a call passes on, resolves rightly. */
  ghost predicate RightAlong(nodes: Nodes, cwd: Place, path: Path) {
    forall n: nat :: RightAt(nodes, cwd, path, n)
  }

  lemma NextAfter(nodes: Nodes, cwd: Place, path: Path, next: Path, n: nat)
    requires OneCall(nodes, cwd, path) == Again(next)
    ensures After(nodes, cwd, path, n + 1) == After(nodes, cwd, next, n)
  {
  }

  lemma {:induction false} RightFromHere(nodes: Nodes, cwd: Place, path: Path, depth: nat)
    requires Tree(nodes) && IsDir(nodes, cwd) && HarmlessAlong(nodes, cwd, path)
    requires Resolve(nodes, cwd, path, depth) != TooDeep
    ensures Right(nodes, cwd, path)
    decreases depth
  {
    ResolveIs(nodes, cwd, path, depth);
    match OneCall(nodes, cwd, path) {
      case Answer(_) =>
      case Again(next) =>
        AlongNext(nodes, cwd, path, next);
        RightFromHere(nodes, cwd, next, depth - 1);
    }
    HarmlessFirst(nodes, cwd, path);
    RightStep(nodes, cwd, path);
  }

  lemma AlongNext(nodes: Nodes, cwd: Place, path: Path, next: Path)
    requires HarmlessAlong(nodes, cwd, path) && OneCall(nodes, cwd, path) == Again(next)
    ensures HarmlessAlong(nodes, cwd, next)
  {
    forall n: nat
      ensures HarmlessAt(nodes, cwd, next, n)
    {
      NextAfter(nodes, cwd, path, next, n);
      assert HarmlessAt(nodes, cwd, path, n + 1);
    }
  }

  lemma HarmlessFirst(nodes: Nodes, cwd: Place, path: Path)
    requires Tree(nodes) && IsDir(nodes, cwd) && HarmlessAlong(nodes, cwd, path)
    ensures RightHere(nodes, cwd, path)
  {
    assert HarmlessAt(nodes, cwd, path, 0);
    RightHereExactly(nodes, cwd, path);
  }

  lemma RightEnds(nodes: Nodes, cwd: Place, path: Path)
    requires Right(nodes, cwd, path)
    ensures Ends(nodes, cwd, path)
  {
    var depth: nat :| Resolve(nodes, cwd, path, depth) == AsResolved(Creates(nodes, cwd, path));
    assert Resolve(nodes, cwd, path, depth) != TooDeep;
  }

  lemma EndsAlong(nodes: Nodes, cwd: Place, path: Path, n: nat)
    requires Ends(nodes, cwd, path) && After(nodes, cwd, path, n).Some?
    ensures Ends(nodes, cwd, After(nodes, cwd, path, n).value)
    decreases n
  {
    if n > 0 {
      var next := OneCall(nodes, cwd, path).path;
      NextAfter(nodes, cwd, path, next, n - 1);
      var depth: nat :| Resolve(nodes, cwd, path, depth) != TooDeep;
      ResolveIs(nodes, cwd, path, depth);
      assert Resolve(nodes, cwd, next, depth - 1) != TooDeep;
      EndsAlong(nodes, cwd, next, n - 1);
    }
  }

  /** If the paths on the way resolve rightly, cleaning is harmless for each of them. */
  lemma RightIsHarmless(nodes: Nodes, cwd: Place, path: Path, n: nat)
    requires Tree(nodes) && IsDir(nodes, cwd) && RightAlong(nodes, cwd, path) && After(nodes, cwd, path, n).Some?
    ensures Harmless(nodes, cwd, After(nodes, cwd, path, n).value)
  {
    var z := After(nodes, cwd, path, n).value;
    assert RightAt(nodes, cwd, path, n);
    match OneCall(nodes, cwd, z) {
      case Answer(_) =>
      case Again(next) =>
        NextAfter(nodes, cwd, z, next, 0);
        IterateMore(Next(nodes, cwd), path, n, 1);
        assert RightAt(nodes, cwd, path, n + 1);
    }
    RightStep(nodes, cwd, z);
    RightHereExactly(nodes, cwd, z);
  }

  /** From a path on the way to the paths on its own way. */
  lemma HarmlessFrom(nodes: Nodes, cwd: Place, path: Path, n: nat)
    requires HarmlessAlong(nodes, cwd, path) && After(nodes, cwd, path, n).Some?
    ensures HarmlessAlong(nodes, cwd, After(nodes, cwd, path, n).value)
  {
    var z := After(nodes, cwd, path, n).value;
    forall m: nat
      ensures HarmlessAt(nodes, cwd, z, m)
    {
      IterateMore(Next(nodes, cwd), path, n, m);
      assert HarmlessAt(nodes, cwd, path, n + m);
    }
  }

  /**
   * In any tree and for any path, clean or not, the path and all paths passed on resolve rightly if and
   * only if the dangling links on the way do not run into a cycle and cleaning is harmless in each call.
   */
  lemma RightAlongExactly(nodes: Nodes, cwd: Place, path: Path)
    requires Tree(nodes) && IsDir(nodes, cwd)
    ensures RightAlong(nodes, cwd, path) <==> !RunsIntoCycle(nodes, cwd, path) && HarmlessAlong(nodes, cwd, path)
  {
    EndsExactly(nodes, cwd, path);
    if RightAlong(nodes, cwd, path) {
      assert RightAt(nodes, cwd, path, 0);
      RightEnds(nodes, cwd, path);
      forall n: nat
        ensures HarmlessAt(nodes, cwd, path, n)
      {
        if After(nodes, cwd, path, n).Some? {
          RightIsHarmless(nodes, cwd, path, n);
        }
      }
    }
    if !RunsIntoCycle(nodes, cwd, path) && HarmlessAlong(nodes, cwd, path) {
      forall n: nat
        ensures RightAt(nodes, cwd, path, n)
      {
        if After(nodes, cwd, path, n).Some? {
          EndsAlong(nodes, cwd, path, n);
          HarmlessFrom(nodes, cwd, path, n);
          var z := After(nodes, cwd, path, n).value;
          var depth: nat :| Resolve(nodes, cwd, z, depth) != TooDeep;
          RightFromHere(nodes, cwd, z, depth);
        }
      }
    }
  }

  /**
   * In any tree, resolveDownloadPath is right for all paths if and only if from no path it runs into a
   * cycle of dangling links, and for every path cleaning is harmless.
   */
  lemma AlwaysRightExactly(nodes: Nodes, cwd: Place)
    requires Tree(nodes) && IsDir(nodes, cwd)
    ensures (forall path: Path :: Right(nodes, cwd, path))
       <==> (forall path: Path :: !RunsIntoCycle(nodes, cwd, path) && Harmless(nodes, cwd, path))
  {
    if forall path: Path :: Right(nodes, cwd, path) {
      forall path: Path
        ensures !RunsIntoCycle(nodes, cwd, path) && Harmless(nodes, cwd, path)
      {
        forall n: nat ensures RightAt(nodes, cwd, path, n) {}
        RightAlongExactly(nodes, cwd, path);
        assert HarmlessAt(nodes, cwd, path, 0);
      }
    }
    if forall path: Path :: !RunsIntoCycle(nodes, cwd, path) && Harmless(nodes, cwd, path) {
      forall path: Path
        ensures Right(nodes, cwd, path)
      {
        forall n: nat ensures HarmlessAt(nodes, cwd, path, n) {}
        RightAlongExactly(nodes, cwd, path);
        assert RightAt(nodes, cwd, path, 0);
      }
    }
  }

  /**
   * When all links are clean, which only the path itself need not be, it resolves rightly if and only
   * if cleaning it is harmless.
   */
  lemma RightWithCleanLinksExactly(nodes: Nodes, cwd: Place, path: Path, depth: nat)
    requires Tree(nodes) && IsDir(nodes, cwd) && CleanLinks(nodes) && depth > MAX_LINKS + 1
    ensures Right(nodes, cwd, path) <==> Harmless(nodes, cwd, path)
    ensures Resolve(nodes, cwd, path, depth) == AsResolved(Creates(nodes, cwd, path)) <==> Harmless(nodes, cwd, path)
  {
    if OneCall(nodes, cwd, path).Again? {
      AgainIsClean(nodes, cwd, path);
      CleanIsRight(nodes, cwd, OneCall(nodes, cwd, path).path);
    }
    RightStep(nodes, cwd, path);
    RightHereExactly(nodes, cwd, path);
    ResolveEnds(nodes, cwd, path, depth);
    if Right(nodes, cwd, path) {
      var d: nat :| Resolve(nodes, cwd, path, d) == AsResolved(Creates(nodes, cwd, path));
      SameAnswer(nodes, cwd, path, d, depth);
    }
  }

  lemma CleanIsRight(nodes: Nodes, cwd: Place, path: Path)
    requires Tree(nodes) && IsDir(nodes, cwd) && CleanLinks(nodes) && IsClean(path)
    ensures Right(nodes, cwd, path)
  {
    ResolveFollows(nodes, cwd, path, MAX_LINKS + 1);
  }

  /** What the tree alone says: the path as it exists, or its end seen from the cleaned directory. */
  function Predicted(nodes: Nodes, cwd: Place, path: Path): Resolved {
    if !Dangles(nodes, cwd, path) || path.steps == [] then AsResolved(Creates(nodes, cwd, path))
    else
      var lexical, last := Lexical(nodes, cwd, path), path.steps[|path.steps| - 1];
      if !lexical.Found? then Error
      else if AtLink(nodes, cwd, path) && IsLink(nodes, Lstat(nodes, cwd, path).place) then
        AsResolved(Creates(nodes, cwd, LinkFrom(lexical.place, nodes[Lstat(nodes, cwd, path).place].target)))
      else Destination(Child(lexical.place, last))
  }

  /** With clean links, any path resolves to what the tree says of its own end; no further call matters. */
  lemma ResolvesByTheTree(nodes: Nodes, cwd: Place, path: Path, depth: nat)
    requires Tree(nodes) && IsDir(nodes, cwd) && CleanLinks(nodes) && depth > MAX_LINKS + 1
    ensures Resolve(nodes, cwd, path, depth) == Predicted(nodes, cwd, path)
  {
    ResolveIs(nodes, cwd, path, depth);
    if !Dangles(nodes, cwd, path) {
      CreateFinds(nodes, Begin(cwd, path), path.steps, 0);
    } else {
      DanglingEnd(nodes, cwd, path);
      if OneCall(nodes, cwd, path).Again? {
        AgainIsClean(nodes, cwd, path);
        ResolveFollows(nodes, cwd, OneCall(nodes, cwd, path).path, depth - 1);
      }
    }
  }

  // ---- A link in the place of the destination ----

  /** The last name is missing, or its directory, but in the cleaned directory there is a link of that name. */
  predicate HitsLink(nodes: Nodes, cwd: Place, path: Path) {
    && Dangles(nodes, cwd, path) && path.steps != [] && !AtLink(nodes, cwd, path)
    && var lexical, last := Lexical(nodes, cwd, path), path.steps[|path.steps| - 1];
       lexical.Found? && last.Into? && lexical.place + [last.name] in nodes && nodes[lexical.place + [last.name]].Link?
  }

  lemma AnswerIsLinkExactly(nodes: Nodes, cwd: Place, path: Path, place: Place)
    requires Tree(nodes) && IsDir(nodes, cwd) && OneCall(nodes, cwd, path) == Answer(Destination(place))
    ensures IsLink(nodes, place) <==> HitsLink(nodes, cwd, path)
  {
    if !Dangles(nodes, cwd, path) {
      CreateFinds(nodes, Begin(cwd, path), path.steps, 0);
      CreatedIsNoLink(nodes, Begin(cwd, path), path.steps, 0);
    } else {
      DanglingEnd(nodes, cwd, path);
      if AtLink(nodes, cwd, path) {
        LinkGives(nodes, cwd, path);
      } else if path.steps[|path.steps| - 1].Up? {
        var lexical := Lexical(nodes, cwd, path);
        FoundIsThere(nodes, Begin(cwd, path), Clean(path.absolute, path.steps[..|path.steps| - 1]), 0);
        assert LiesInDir(nodes, lexical.place) && LiesInDir(nodes, []);
      }
    }
  }

  /** The path of the last call. */
  function LastCall(nodes: Nodes, cwd: Place, path: Path, depth: nat): Path
    decreases depth
  {
    if depth == 0 then path
    else
      match OneCall(nodes, cwd, path)
      case Answer(_) => path
      case Again(next) => LastCall(nodes, cwd, next, depth - 1)
  }

  /**
   * In any tree and from any path, the destination is a link, which a save then replaces, if and only
   * if the path of the last call hits one.
   */
  lemma {:induction false} DestinationIsLinkExactly(nodes: Nodes, cwd: Place, path: Path, depth: nat)
    requires Tree(nodes) && IsDir(nodes, cwd) && Resolve(nodes, cwd, path, depth).Destination?
    ensures IsLink(nodes, Resolve(nodes, cwd, path, depth).place)
       <==> HitsLink(nodes, cwd, LastCall(nodes, cwd, path, depth))
    decreases depth
  {
    ResolveIs(nodes, cwd, path, depth);
    match OneCall(nodes, cwd, path)
    case Answer(r) => AnswerIsLinkExactly(nodes, cwd, path, r.place);
    case Again(next) => DestinationIsLinkExactly(nodes, cwd, next, depth - 1);
  }

  /** With clean links only the path itself can hit a link. */
  lemma HitsLinkWithCleanLinksExactly(nodes: Nodes, cwd: Place, path: Path, depth: nat)
    requires Tree(nodes) && IsDir(nodes, cwd) && CleanLinks(nodes) && depth > MAX_LINKS + 1
    requires Resolve(nodes, cwd, path, depth).Destination?
    ensures IsLink(nodes, Resolve(nodes, cwd, path, depth).place) <==> HitsLink(nodes, cwd, path)
  {
    ResolveIs(nodes, cwd, path, depth);
    match OneCall(nodes, cwd, path)
    case Answer(r) => AnswerIsLinkExactly(nodes, cwd, path, r.place);
    case Again(next) =>
      AgainIsClean(nodes, cwd, path);
      ResolveFollows(nodes, cwd, next, depth - 1);
      CreatedIsNoLink(nodes, Begin(cwd, next), next.steps, 0);
      assert !HitsLink(nodes, cwd, path) by { AgainIsAtLink(nodes, cwd, path); }
  }

  lemma AgainIsAtLink(nodes: Nodes, cwd: Place, path: Path)
    requires OneCall(nodes, cwd, path).Again?
    ensures AtLink(nodes, cwd, path)
  {
  }

  // ---- Inputs on which it goes wrong ----

  lemma Cancelled(m: Name, p: Name)
    ensures Clean(true, [Into(m), Up, Into(p)]) == [Into(p)]
    ensures Clean(true, [Into(m), Up]) == []
  {
    assert [Into(m), Up, Into(p)] == [Into(m), Up] + [Into(p)] && [Into(m), Up] == [Into(m)] + [Up];
    assert [Into(m)] == [] + [Into(m)];
    CleanSnoc(true, [], Into(m));
    CleanSnoc(true, [Into(m)], Up);
    CleanSnoc(true, [Into(m), Up], Into(p));
  }

  lemma FollowsIntoMissing(nodes: Nodes, steps: seq<Step>, m: Name, links: nat)
    requires links <= MAX_LINKS && |steps| > 1 && steps[0] == Into(m) && [m] !in nodes
    ensures forall create :: Follow(nodes, [], steps, links, create) == NotExist(links)
  {
    assert [] + [m] == [m];
  }

  /** `m/../y` with m missing is answered with y, whatever is there, a link too. */
  lemma AnsweredAsCleaned(nodes: Nodes, m: Name, y: Name)
    requires [m] !in nodes
    ensures var path := Path(true, [Into(m), Up, Into(y)]);
            && Creates(nodes, [], path) == NotExist(0)
            && OneCall(nodes, [], path) == Answer(Destination([y]))
  {
    var path := Path(true, [Into(m), Up, Into(y)]);
    FollowsIntoMissing(nodes, path.steps, m, 0);
    Cancelled(m, y);
    assert path.steps[..2] == [Into(m), Up];
    FollowsIntoMissing(nodes, [Into(m), Up], m, 0);
    assert [] + [y] == [y];
  }

  /** The path `m/../y`, where m does not exist: nothing can be created there, yet the destination is y. */
  lemma UncleanPathGoesElsewhere(m: Name, y: Name, depth: nat)
    requires m != y && depth > 0
    ensures var path := Path(true, [Into(m), Up, Into(y)]);
            && Creates(map[], [], path) == NotExist(0)
            && Resolve(map[], [], path, depth) == Destination([y])
  {
    AnsweredAsCleaned(map[], m, y);
    ResolveIs(map[], [], Path(true, [Into(m), Up, Into(y)]), depth);
  }

  /** A lone link p to `/m/../p`, where m does not exist: the destination is the link itself. */
  lemma LinkIsItsOwnDestination(m: Name, p: Name, depth: nat)
    requires m != p && depth > 1
    ensures var nodes: Nodes := map[[p] := Link(Path(true, [Into(m), Up, Into(p)]))];
            && Tree(nodes) && IsLink(nodes, [p])
            && Resolve(nodes, [], Path(true, [Into(p)]), depth) == Destination([p])
  {
    var target := Path(true, [Into(m), Up, Into(p)]);
    var nodes: Nodes := map[[p] := Link(target)];
    var path := Path(true, [Into(p)]);
    assert [m][0] == m && [p][0] == p;
    AnsweredAsCleaned(nodes, m, p);
    FollowsIntoMissing(nodes, target.steps, m, 1);
    CallOnLink(nodes, [], [p], target);
    assert PathTo([p]) == path && Parent([p]) == [];
    ResolveIs(nodes, [], path, depth);
    ResolveIs(nodes, [], target, depth - 1);
  }
}
