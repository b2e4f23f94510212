/** Saving a download through symbolic links (client/knowledge.go). */
module Download {
  import opened Basics
  import opened LinkPaths
  import opened LinkChains
  import opened LinkAnswers

  /** The path leads to this place. */
  predicate Finds(nodes: Nodes, cwd: Place, path: Path, place: Place) {
    var r := Follow(nodes, Begin(cwd, path), path.steps, 0, false);
    r.Found? && r.place == place
  }

  /** Opening the path for creation would give this place. */
  predicate WouldCreate(nodes: Nodes, cwd: Place, path: Path, place: Place) {
    var r := Creates(nodes, cwd, path);
    r.Found? && r.place == place
  }

  /** What is at the place is not a link, nor a directory. */
  predicate Writable(nodes: Nodes, place: Place) {
    place in nodes ==> nodes[place].File?
  }

  /** With a file written there, a path leads there exactly when opening it for creation led there before. */
  lemma {:induction false} LeadsToWritten(nodes: Nodes, place: Place, file: Node, dir: Place, steps: seq<Step>,
                                          links: nat)
    requires file.File? && Writable(nodes, place) && links <= MAX_LINKS
    ensures var after := Follow(nodes[place := file], dir, steps, links, false);
            var before := Follow(nodes, dir, steps, links, true);
            after.Found? && after.place == place <==> before.Found? && before.place == place
    decreases MAX_LINKS - links, |steps|
  {
    if steps != [] {
      var rest := steps[1..];
      match steps[0]
      case Up => LeadsToWritten(nodes, place, file, Parent(dir), rest, links);
      case Into(name) =>
        var here := dir + [name];
        if here in nodes && here != place {
          if nodes[here].Directory? {
            LeadsToWritten(nodes, place, file, here, rest, links);
          } else if nodes[here].Link? && links < MAX_LINKS {
            var target := nodes[here].target;
            LeadsToWritten(nodes, place, file, Begin(dir, target), target.steps + rest, links + 1);
          }
        }
    }
  }

  /** What reading through a path gives. */
  function ReadThrough(nodes: Nodes, cwd: Place, path: Path): Option<Text> {
    match Follow(nodes, Begin(cwd, path), path.steps, 0, false)
    case Found(place, _) => if place in nodes && nodes[place].File? then Some(nodes[place].content) else None
    case _ => None
  }

  /** A response body, cut short or complete. */
  datatype Body = Body(bytes: Text, complete: bool)

  /** The file system calls that may fail. */
  datatype Faults = Faults(create: bool, chmod: bool, write: bool, close: bool, rename: bool, remove: bool)

  /** `Crashed` when the recursion has no room left. */
  datatype Saved = Done | Failure | Crashed

  const TEMP_MODE: nat := 0x180

  /** The temporary file beside a destination. */
  function PartOf(destination: Place, random: nat): Place
    requires destination != []
  {
    Parent(destination) + [Part(destination[|destination| - 1], random)]
  }

  lemma PartDiffers(destination: Place, random: nat)
    requires destination != []
    ensures PartOf(destination, random) != destination && Parent(PartOf(destination, random)) == Parent(destination)
  {
    var part := Part(destination[|destination| - 1], random);
    assert part.base < part;
    assert PartOf(destination, random)[|destination| - 1] == part;
  }

  lemma WriteKeepsTree(nodes: Nodes, place: Place, file: Node, cwd: Place)
    requires Tree(nodes) && IsDir(nodes, cwd) && file.File?
    requires place != [] && IsDir(nodes, Parent(place)) && !IsDir(nodes, place)
    ensures Tree(nodes[place := file]) && IsDir(nodes[place := file], cwd)
  {
    var after := nodes[place := file];
    forall p: Place
      ensures LiesInDir(after, p)
    {
      assert LiesInDir(nodes, p);
    }
  }

  class Disk {
    const cwd: Place
    var nodes: Nodes

    constructor (cwd: Place, nodes: Nodes)
      requires Tree(nodes) && IsDir(nodes, cwd)
      ensures Valid() && this.cwd == cwd && this.nodes == nodes
    {
      this.cwd, this.nodes := cwd, nodes;
    }

    ghost predicate Valid()
      reads this
    {
      Tree(nodes) && IsDir(nodes, cwd)
    }

    /** A new empty file beside the destination, which is not the root and lies in a directory. */
    method CreateTemp(destination: Place, random: nat, fails: bool) returns (temp: Option<Place>)
      modifies this
      ensures temp.None? ==> nodes == old(nodes)
      ensures temp.Some? <==> !fails && destination != [] && IsDir(old(nodes), Parent(destination))
                              && PartOf(destination, random) !in old(nodes)
      ensures temp.Some? ==>
                temp.value == PartOf(destination, random) && nodes == old(nodes)[temp.value := File([], TEMP_MODE)]
    {
      if fails || destination == [] || !IsDir(nodes, Parent(destination)) {
        return None;
      }
      var place := PartOf(destination, random);
      if place in nodes {
        return None;
      }
      nodes := nodes[place := File([], TEMP_MODE)];
      temp := Some(place);
    }

    /** Removes a file; nobody looks whether that fails. */
    method Remove(place: Place, fails: bool)
      modifies this
      ensures nodes == if fails then old(nodes) else old(nodes) - {place}
    {
      if !fails {
        nodes := nodes - {place};
      }
    }

    /** Rename replaces the destination at once; a directory there makes it fail. */
    method Rename(from: Place, to: Place, fails: bool) returns (ok: bool)
      requires from in nodes && from != to
      modifies this
      ensures ok == (!fails && !(to in old(nodes) && old(nodes)[to].Directory?))
      ensures !ok ==> nodes == old(nodes)
      ensures ok ==> nodes == (old(nodes) - {from})[to := old(nodes)[from]]
    {
      ok := !fails && !(to in nodes && nodes[to].Directory?);
      if ok {
        nodes := (nodes - {from})[to := nodes[from]];
      }
    }

    /** The permissions of what is there already, if anything is. */
    function ExistingMode(path: Path): Option<nat>
      reads this
    {
      match Follow(nodes, Begin(cwd, path), path.steps, 0, false)
      case Found(place, _) => if place in nodes && !nodes[place].Link? then Some(nodes[place].mode) else None
      case _ => None
    }

    function ModeOf(existing: Option<nat>): nat {
      if existing.Some? then existing.value else TEMP_MODE
    }

    function ModeFor(path: Path): nat
      reads this
    {
      ModeOf(ExistingMode(path))
    }

    /** The path resolves to a place that is not a directory, and the temporary name is free. */
    predicate CanSave(path: Path, random: nat, depth: nat)
      reads this
    {
      var r := Resolve(nodes, cwd, path, depth);
      r.Destination? && r.place != [] && IsDir(nodes, Parent(r.place)) && !IsDir(nodes, r.place)
      && PartOf(r.place, random) !in nodes
    }

    /** With the temporary file made and open: permissions, copy, close and rename. */
    method Fill(body: Body, existing: Option<nat>, temp: Place, destination: Place, faults: Faults) returns (ok: bool)
      requires temp in nodes && temp != destination
      modifies this
      ensures ok == (body.complete && !(existing.Some? && faults.chmod)
                     && !faults.write && !faults.close && !faults.rename
                     && !(destination in old(nodes) && old(nodes)[destination].Directory?))
      ensures !ok ==> temp in nodes && nodes == old(nodes)[temp := nodes[temp]]
      ensures ok ==> nodes == (old(nodes) - {temp})[destination := File(body.bytes, ModeOf(existing))]
    {
      ok := false;
      if existing.Some? && faults.chmod {
        return;
      }
      nodes := nodes[temp := File(body.bytes, ModeOf(existing))];
      if !body.complete || faults.write || faults.close {
        return;
      }
      ok := Rename(temp, destination, faults.rename);
    }

    /** Everything after the resolution: a temporary file is made, filled, put in place, and removed. */
    method SaveTo(body: Body, destination: Place, existing: Option<nat>, random: nat, faults: Faults) returns (ok: bool)
      modifies this
      ensures ok ==>
                && body.complete && destination != []
                && !IsDir(old(nodes), destination) && IsDir(old(nodes), Parent(destination))
      ensures ok ==> nodes == old(nodes)[destination := File(body.bytes, ModeOf(existing))]
      ensures !ok && !faults.remove ==> nodes == old(nodes)
      ensures !ok && nodes != old(nodes) ==>
                && destination != []
                && var temp := PartOf(destination, random);
                   temp !in old(nodes) && temp in nodes && nodes - {temp} == old(nodes)
      ensures (body.complete && !faults.create && !faults.chmod && !faults.write && !faults.close && !faults.rename
               && destination != [] && IsDir(old(nodes), Parent(destination)) && !IsDir(old(nodes), destination)
               && PartOf(destination, random) !in old(nodes)) ==> ok
    {
      ghost var before := nodes;
      var created := CreateTemp(destination, random, faults.create);
      if created.None? {
        return false;
      }
      var temp := created.value;
      PartDiffers(destination, random);
      assert nodes - {temp} == before;
      ok := Fill(body, existing, temp, destination, faults);
      assert nodes - {temp} == if ok then before[destination := File(body.bytes, ModeOf(existing))] else before;
      Remove(temp, faults.remove);
      assert ok ==> nodes == nodes - {temp};
    }

    /**
     * saveDownloadedFile: on success exactly the destination has changed, to the complete body. On
     * any failure nothing has changed, unless removing the temporary file fails too: then only that
     * file, a new one, is left over.
     */
    method SaveDownloadedFile(body: Body, path: Path, random: nat, faults: Faults, depth: nat) returns (r: Saved)
      requires Valid()
      modifies this
      ensures r.Done? ==> Valid()
      ensures r.Crashed? <==> old(Resolve(nodes, cwd, path, depth)) == TooDeep
      ensures !r.Done? && (r.Crashed? || !faults.remove) ==> nodes == old(nodes)
      ensures r.Failure? && nodes != old(nodes) ==>
                && old(Resolve(nodes, cwd, path, depth)).Destination?
                && old(Resolve(nodes, cwd, path, depth)).place != []
                && var temp := PartOf(old(Resolve(nodes, cwd, path, depth)).place, random);
                   temp !in old(nodes) && temp in nodes && nodes - {temp} == old(nodes)
      ensures r.Done? ==>
                && body.complete && old(Resolve(nodes, cwd, path, depth)).Destination?
                && var destination := old(Resolve(nodes, cwd, path, depth)).place;
                   && !IsDir(old(nodes), destination)
                   && nodes == old(nodes)[destination := File(body.bytes, old(ModeFor(path)))]
      // When reading through the path gives the body, and when every link is kept.
      ensures r.Done? ==>
                SavedWell(old(nodes), cwd, path, old(Resolve(nodes, cwd, path, depth)).place, depth, body.bytes, nodes)
      ensures (body.complete && !faults.create && !faults.chmod && !faults.write && !faults.close && !faults.rename
               && old(CanSave(path, random, depth))) ==> r.Done?
    {
      var resolved := Resolve(nodes, cwd, path, depth);
      if resolved.TooDeep? {
        return Crashed;
      }
      if resolved.Error? {
        return Failure;
      }
      ghost var before := nodes;
      var existing := ExistingMode(path);
      var ok := SaveTo(body, resolved.place, existing, random, faults);
      if ok {
        WriteKeepsTree(before, resolved.place, File(body.bytes, ModeOf(existing)), cwd);
        SavesWell(before, cwd, path, resolved.place, body.bytes, ModeOf(existing), depth);
      }
      r := if ok then Done else Failure;
    }
  }

  /** The path exists, or it and all links are clean and there is room to resolve them. */
  predicate LeadsSurely(nodes: Nodes, cwd: Place, path: Path, depth: nat) {
    !Follow(nodes, Begin(cwd, path), path.steps, 0, false).NotExist?
    || (CleanLinks(nodes) && IsClean(path) && depth > MAX_LINKS)
  }

  /** The tree without the link at this place, if there is one. */
  function WithoutLink(nodes: Nodes, place: Place): Nodes {
    if IsLink(nodes, place) then nodes - {place} else nodes
  }

  /**
   * In any tree and for any path: after a save to this destination the path leads there, and reading
   * through it gives the body, exactly when, with a link at the destination taken away, opening the path
   * for creation would have led there.
   */
  lemma WrittenIsRead(nodes: Nodes, cwd: Place, path: Path, destination: Place, bytes: Text, mode: nat)
    requires !IsDir(nodes, destination)
    ensures var after := nodes[destination := File(bytes, mode)];
            && (Finds(after, cwd, path, destination) <==> WouldCreate(WithoutLink(nodes, destination), cwd, path,
                                                                      destination))
            && (Finds(after, cwd, path, destination) ==> ReadThrough(after, cwd, path) == Some(bytes))
  {
    var before, file := WithoutLink(nodes, destination), File(bytes, mode);
    assert before[destination := file] == nodes[destination := file];
    LeadsToWritten(before, destination, file, Begin(cwd, path), path.steps, 0);
  }

  /** All links are still there exactly when the destination was none. */
  lemma LinksAreKept(nodes: Nodes, destination: Place, file: Node)
    requires file.File?
    ensures KeepsLinks(nodes, nodes[destination := file]) <==> !IsLink(nodes, destination)
  {
    var after := nodes[destination := file];
    assert after[destination] == file;
  }

  predicate KeepsLinks(nodes: Nodes, after: Nodes) {
    forall p :: p in nodes && nodes[p].Link? ==> p in after && after[p] == nodes[p]
  }

  /** A walk that gets along without the link at this place is the same with it. */
  lemma {:induction false} SameWalk(nodes: Nodes, place: Place, dir: Place, steps: seq<Step>, links: nat)
    requires links <= MAX_LINKS
    ensures var r := Follow(nodes - {place}, dir, steps, links, false);
            r.Found? ==> Follow(nodes, dir, steps, links, false) == r
    decreases MAX_LINKS - links, |steps|
  {
    if steps != [] {
      var rest := steps[1..];
      match steps[0]
      case Up => SameWalk(nodes, place, Parent(dir), rest, links);
      case Into(name) =>
        var here := dir + [name];
        if here in nodes && here != place {
          if nodes[here].Directory? {
            SameWalk(nodes, place, here, rest, links);
          } else if nodes[here].Link? && links < MAX_LINKS {
            var target := nodes[here].target;
            SameWalk(nodes, place, Begin(dir, target), target.steps + rest, links + 1);
          }
        }
    }
  }

  lemma TreeWithoutLink(nodes: Nodes, place: Place, cwd: Place)
    requires Tree(nodes) && IsDir(nodes, cwd) && IsLink(nodes, place)
    ensures Tree(nodes - {place}) && IsDir(nodes - {place}, cwd)
  {
    var rest := nodes - {place};
    forall p: Place
      ensures LiesInDir(rest, p)
    {
      assert LiesInDir(nodes, p);
    }
  }

  /** A save that hits a link is not read back through the path that led to it. */
  lemma HitLinkIsNotRead(nodes: Nodes, cwd: Place, path: Path, place: Place)
    requires Tree(nodes) && IsDir(nodes, cwd) && HitsLink(nodes, cwd, path) && IsLink(nodes, place)
    ensures !WouldCreate(nodes - {place}, cwd, path, place)
  {
    var rest, last := nodes - {place}, path.steps[|path.steps| - 1];
    TreeWithoutLink(nodes, place, cwd);
    LastElement(rest, cwd, path, true);
    var physical := Physical(rest, cwd, path);
    if physical.Found? {
      SameWalk(nodes, place, Begin(cwd, path), path.steps[..|path.steps| - 1], 0);
      DanglingEnd(nodes, cwd, path);
      OneNameCreates(rest, physical.place, last.name, physical.links);
      assert [last] == [Into(last.name)];
    }
  }

  /** Opening a missing name for creation gives that name. */
  lemma OneNameCreates(nodes: Nodes, dir: Place, name: Name, links: nat)
    requires links <= MAX_LINKS && dir + [name] !in nodes
    ensures Follow(nodes, dir, [Into(name)], links, true) == Found(dir + [name], links)
  {
    assert [Into(name)][1..] == [];
  }

  /**
   * With clean links, for any path: a save is read back through the path if and only if cleaning the
   * path is harmless, and it replaces a link if and only if the path hits one.
   */
  lemma SavesRightExactly(nodes: Nodes, cwd: Place, path: Path, destination: Place, file: Node, depth: nat)
    requires Tree(nodes) && IsDir(nodes, cwd) && CleanLinks(nodes) && depth > MAX_LINKS + 1 && file.File?
    requires Resolve(nodes, cwd, path, depth) == Destination(destination) && !IsDir(nodes, destination)
    ensures Finds(nodes[destination := file], cwd, path, destination) <==> Harmless(nodes, cwd, path)
    ensures KeepsLinks(nodes, nodes[destination := file]) <==> !HitsLink(nodes, cwd, path)
  {
    RightWithCleanLinksExactly(nodes, cwd, path, depth);
    HitsLinkWithCleanLinksExactly(nodes, cwd, path, depth);
    LinksAreKept(nodes, destination, file);
    WrittenIsRead(nodes, cwd, path, destination, file.content, file.mode);
    CreatedIsNoLink(nodes, Begin(cwd, path), path.steps, 0);
    if IsLink(nodes, destination) {
      HitLinkIsNotRead(nodes, cwd, path, destination);
    }
  }

  /**
   * The destination of a save is what the path leads to, and no link, when the path exists or when
   * it and all links are clean.
   */
  lemma SavesWherePathLeads(nodes: Nodes, cwd: Place, path: Path, destination: Place, depth: nat)
    requires Tree(nodes) && IsDir(nodes, cwd) && Resolve(nodes, cwd, path, depth) == Destination(destination)
    requires LeadsSurely(nodes, cwd, path, depth)
    ensures WouldCreate(nodes, cwd, path, destination) && !IsLink(nodes, destination)
  {
    if Follow(nodes, Begin(cwd, path), path.steps, 0, false).NotExist? {
      ResolveFollows(nodes, cwd, path, depth);
    } else {
      ResolveExisting(nodes, cwd, path, depth);
    }
    CreatedIsNoLink(nodes, Begin(cwd, path), path.steps, 0);
  }

  /** What a save to its destination has done, in terms of the tree before it. */
  ghost predicate SavedWell(nodes: Nodes, cwd: Place, path: Path, destination: Place, depth: nat, bytes: Text,
                            after: Nodes) {
    && (Finds(after, cwd, path, destination) <==> WouldCreate(WithoutLink(nodes, destination), cwd, path, destination))
    && (Finds(after, cwd, path, destination) ==> ReadThrough(after, cwd, path) == Some(bytes))
    && (KeepsLinks(nodes, after) <==> !HitsLink(nodes, cwd, LastCall(nodes, cwd, path, depth)))
    && (LeadsSurely(nodes, cwd, path, depth) ==> Finds(after, cwd, path, destination) && KeepsLinks(nodes, after))
    && (CleanLinks(nodes) && depth > MAX_LINKS + 1 ==>
          && (Finds(after, cwd, path, destination) <==> Harmless(nodes, cwd, path))
          && (KeepsLinks(nodes, after) <==> !HitsLink(nodes, cwd, path)))
  }

  lemma SavesWell(nodes: Nodes, cwd: Place, path: Path, destination: Place, bytes: Text, mode: nat, depth: nat)
    requires Tree(nodes) && IsDir(nodes, cwd) && Resolve(nodes, cwd, path, depth) == Destination(destination)
    requires !IsDir(nodes, destination)
    ensures SavedWell(nodes, cwd, path, destination, depth, bytes, nodes[destination := File(bytes, mode)])
  {
    WrittenIsRead(nodes, cwd, path, destination, bytes, mode);
    LinksAreKept(nodes, destination, File(bytes, mode));
    DestinationIsLinkExactly(nodes, cwd, path, depth);
    if LeadsSurely(nodes, cwd, path, depth) {
      SavesWherePathLeads(nodes, cwd, path, destination, depth);
    }
    if CleanLinks(nodes) && depth > MAX_LINKS + 1 {
      SavesRightExactly(nodes, cwd, path, destination, File(bytes, mode), depth);
    }
  }
}
