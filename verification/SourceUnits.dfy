/** Source ranges over assembled text (docreader/source_units.py) and their transport to Go. */
module SourceUnits {
  import opened Basics

  /** A nested unit with local offsets; `None` when an offset is missing or not a number. */
  datatype Child = Child(unitId: Text, kind: Text, sourceStart: Option<int>, sourceEnd: Option<int>, page: Option<int>)

  /** A parsed block; absent text fields are empty. */
  datatype Block = Block(text: Text, unitId: Text, kind: Text, page: Option<int>, parentId: Text, children: seq<Child>)

  datatype Unit = Unit(unitId: Text, kind: Text, text: Text, sourceStart: nat, sourceEnd: nat, page: Option<int>,
                       parentId: Text)

  const SEPARATOR: Text := [LF, LF]
  const BLOCK_PREFIX: Text := [0x62, 0x6C, 0x6F, 0x63, 0x6B, 0x2D]
  const CHILD_INFIX: Text := [0x2D, 0x63, 0x68, 0x69, 0x6C, 0x64, 0x2D]
  const BLOCK_KIND: Text := [0x62, 0x6C, 0x6F, 0x63, 0x6B]
  const CHILD_KIND: Text := [0x62, 0x6C, 0x6F, 0x63, 0x6B, 0x2D, 0x63, 0x68, 0x69, 0x6C, 0x64]

  function Decimal(n: nat): Text {
    if n < 10 then [0x30 + n] else Decimal(n / 10) + [0x30 + n % 10]
  }

  function OrDefault(given: Text, default: Text): Text {
    if given == [] then default else given
  }

  function BlockId(block: Block, index: nat): Text {
    OrDefault(block.unitId, BLOCK_PREFIX + Decimal(index + 1))
  }

  // ---- The result, described block by block ----

  /** The texts of the blocks that have one. */
  function Texts(blocks: seq<Block>): seq<Text> {
    if blocks == [] then []
    else
      var last := blocks[|blocks| - 1];
      Texts(blocks[..|blocks| - 1]) + if last.text == [] then [] else [last.text]
  }

  function Joined(blocks: seq<Block>): Text {
    Join(Texts(blocks), SEPARATOR)
  }

  /** Where the next block's text starts: after what is joined so far and a separator, if any. */
  function StartAfter(blocks: seq<Block>): nat {
    if Texts(blocks) == [] then 0 else |Joined(blocks)| + |SEPARATOR|
  }

  function ParentUnit(block: Block, index: nat, start: nat): Unit {
    Unit(BlockId(block, index), OrDefault(block.kind, BLOCK_KIND), block.text, start, start + |block.text|, block.page,
         block.parentId)
  }

  predicate ChildInRange(child: Child, text: Text) {
    && child.sourceStart.Some? && child.sourceEnd.Some?
    && 0 <= child.sourceStart.value < child.sourceEnd.value <= |text|
  }

  function ChildUnit(child: Child, childIndex: nat, parent: Unit): Unit
    requires ChildInRange(child, parent.text)
  {
    Unit(OrDefault(child.unitId, parent.unitId + CHILD_INFIX + Decimal(childIndex + 1)),
         OrDefault(child.kind, CHILD_KIND),
         parent.text[child.sourceStart.value..child.sourceEnd.value],
         parent.sourceStart + child.sourceStart.value,
         parent.sourceStart + child.sourceEnd.value,
         child.page,
         parent.unitId)
  }

  function ChildUnits(children: seq<Child>, parent: Unit): seq<Unit> {
    if children == [] then []
    else
      var last := children[|children| - 1];
      ChildUnits(children[..|children| - 1], parent)
      + if ChildInRange(last, parent.text) then [ChildUnit(last, |children| - 1, parent)] else []
  }

  function Units(blocks: seq<Block>): seq<Unit> {
    if blocks == [] then []
    else
      var before, last := blocks[..|blocks| - 1], blocks[|blocks| - 1];
      var parent := ParentUnit(last, |before|, StartAfter(before));
      Units(before) + if last.text == [] then [] else [parent] + ChildUnits(last.children, parent)
  }

  /** The units that are blocks of their own. */
  function ParentUnits(blocks: seq<Block>): seq<Unit> {
    if blocks == [] then []
    else
      var before, last := blocks[..|blocks| - 1], blocks[|blocks| - 1];
      ParentUnits(before) + if last.text == [] then [] else [ParentUnit(last, |before|, StartAfter(before))]
  }

  // ---- The loops ----

  /** The inner loop: children with a proper range become units, the others are passed over. */
  method AddChildren(before: seq<Unit>, children: seq<Child>, parent: Unit) returns (units: seq<Unit>)
    ensures units == before + ChildUnits(children, parent)
  {
    units := before;
    for childIndex := 0 to |children|
      invariant units == before + ChildUnits(children[..childIndex], parent)
    {
      var child := children[childIndex];
      assert children[..childIndex + 1] == children[..childIndex] + [child];
      ChildUnitsSnoc(children[..childIndex], child, parent);
      if child.sourceStart.None? || child.sourceEnd.None? {
        continue;
      }
      if child.sourceStart.value < 0 || child.sourceEnd.value <= child.sourceStart.value
         || child.sourceEnd.value > |parent.text| {
        continue;
      }
      units := units + [ChildUnit(child, childIndex, parent)];
    }
    assert children[..|children|] == children;
  }

  method AssembleSourceBlocks(blocks: seq<Block>) returns (text: Text, units: seq<Unit>)
    ensures text == Joined(blocks)
    ensures units == Units(blocks)
  {
    var parts: seq<Text> := [];
    units := [];
    var cursor := 0;
    for blockIndex := 0 to |blocks|
      invariant parts == Texts(blocks[..blockIndex])
      invariant units == Units(blocks[..blockIndex])
      invariant cursor == |Joined(blocks[..blockIndex])|
    {
      var block := blocks[blockIndex];
      ghost var before := blocks[..blockIndex];
      assert blocks[..blockIndex + 1] == before + [block];
      JoinedSnoc(before, block);
      UnitsSnoc(before, block);
      if block.text == [] {
        continue;
      }
      if |parts| > 0 {
        cursor := cursor + 2;
      }
      var start := cursor;
      var end := start + |block.text|;
      parts := parts + [block.text];
      var parent := ParentUnit(block, blockIndex, start);
      units := AddChildren(units + [parent], block.children, parent);
      cursor := end;
    }
    assert blocks[..|blocks|] == blocks;
    text := Join(parts, SEPARATOR);
  }

  lemma ChildUnitsSnoc(children: seq<Child>, last: Child, parent: Unit)
    ensures ChildUnits(children + [last], parent)
         == ChildUnits(children, parent)
            + if ChildInRange(last, parent.text) then [ChildUnit(last, |children|, parent)] else []
  {
    assert (children + [last])[..|children|] == children;
  }

  lemma UnitsSnoc(before: seq<Block>, last: Block)
    ensures var parent := ParentUnit(last, |before|, StartAfter(before));
            Units(before + [last])
            == if last.text == [] then Units(before) else Units(before) + [parent] + ChildUnits(last.children, parent)
  {
    assert (before + [last])[..|before|] == before;
    var parent := ParentUnit(last, |before|, StartAfter(before));
    Associate(Units(before), [parent], ChildUnits(last.children, parent));
  }

  lemma {:induction false} JoinSnoc(parts: seq<Text>, x: Text, sep: Text)
    ensures Join(parts + [x], sep) == Join(parts, sep) + (if parts == [] then [] else sep) + x
  {
    if parts == [] {
      assert parts + [x] == [x];
    } else {
      assert (parts + [x])[1..] == parts[1..] + [x];
      JoinSnoc(parts[1..], x, sep);
      if |parts| > 1 {
        assert Join(parts, sep) == parts[0] + sep + Join(parts[1..], sep);
      } else {
        assert parts[1..] == [] && Join([x], sep) == x;
      }
    }
  }

  // ---- Exactness of the ranges ----

  /** The unit's range cuts exactly its text out of the whole. */
  predicate Exact(u: Unit, text: Text) {
    u.sourceStart <= u.sourceEnd <= |text| && text[u.sourceStart..u.sourceEnd] == u.text
  }

  /** What one more block adds. */
  lemma JoinedSnoc(before: seq<Block>, last: Block)
    ensures Texts(before + [last]) == Texts(before) + if last.text == [] then [] else [last.text]
    ensures var sep := if Texts(before) == [] then [] else SEPARATOR;
            Joined(before + [last]) == if last.text == [] then Joined(before) else Joined(before) + (sep + last.text)
    ensures StartAfter(before) == |Joined(before)| + if Texts(before) == [] then 0 else 2
  {
    assert (before + [last])[..|before|] == before;
    if last.text != [] {
      JoinSnoc(Texts(before), last.text, SEPARATOR);
      Associate(Joined(before), if Texts(before) == [] then [] else SEPARATOR, last.text);
    } else {
      assert Texts(before) + [] == Texts(before);
    }
  }

  lemma NewParentExact(before: seq<Block>, last: Block)
    requires last.text != []
    ensures Exact(ParentUnit(last, |before|, StartAfter(before)), Joined(before + [last]))
    ensures StartAfter(before) + |last.text| == |Joined(before + [last])|
  {
    JoinedSnoc(before, last);
  }

  lemma {:induction false} ChildrenExact(children: seq<Child>, parent: Unit, text: Text)
    requires Exact(parent, text)
    requires parent.sourceEnd == parent.sourceStart + |parent.text|
    ensures forall u :: u in ChildUnits(children, parent) ==>
              Exact(u, text) && u.text != [] && parent.sourceStart <= u.sourceStart < u.sourceEnd <= parent.sourceEnd
              && u.parentId == parent.unitId
  {
    if children != [] {
      var last := children[|children| - 1];
      ChildrenExact(children[..|children| - 1], parent, text);
      if ChildInRange(last, parent.text) {
        var i, j := last.sourceStart.value, last.sourceEnd.value;
        assert text[parent.sourceStart..parent.sourceEnd][i..j] == text[parent.sourceStart + i..parent.sourceStart + j];
      }
    }
  }

  /** Every unit, parent or child, has the exact range of its text in the assembled document. */
  lemma {:induction false} UnitsExact(blocks: seq<Block>)
    ensures forall u :: u in Units(blocks) ==> Exact(u, Joined(blocks))
  {
    if blocks != [] {
      var before, last := blocks[..|blocks| - 1], blocks[|blocks| - 1];
      assert blocks == before + [last];
      UnitsExact(before);
      JoinedSnoc(before, last);
      var more := Joined(blocks)[|Joined(before)|..];
      assert Joined(blocks) == Joined(before) + more;
      forall u | u in Units(before)
        ensures Exact(u, Joined(blocks))
      {
        LongerText(u, u, Joined(before), more);
      }
      if last.text != [] {
        NewParentExact(before, last);
        ChildrenExact(last.children, ParentUnit(last, |before|, StartAfter(before)), Joined(blocks));
      }
    }
  }

  /** Exactly one separator stands between the two units. */
  predicate Adjacent(a: Unit, b: Unit, text: Text) {
    a.sourceEnd + 2 == b.sourceStart <= |text| && text[a.sourceEnd..b.sourceStart] == SEPARATOR
  }

  lemma LongerText(u: Unit, v: Unit, text: Text, more: Text)
    requires Exact(v, text)
    ensures Exact(v, text + more)
    ensures Adjacent(u, v, text) ==> Adjacent(u, v, text + more)
  {
    assert (text + more)[v.sourceStart..v.sourceEnd] == text[v.sourceStart..v.sourceEnd];
    if Adjacent(u, v, text) {
      assert (text + more)[u.sourceEnd..v.sourceStart] == text[u.sourceEnd..v.sourceStart];
    }
  }

  /** Consecutive parents are one separator apart; the first starts and the last ends the text. */
  predicate Tiles(parents: seq<Unit>, text: Text) {
    && (forall k :: 0 <= k < |parents| ==> Exact(parents[k], text))
    && (forall k :: 0 < k < |parents| ==> Adjacent(parents[k - 1], parents[k], text))
    && (if parents == [] then text == [] else parents[0].sourceStart == 0 && parents[|parents| - 1].sourceEnd == |text|)
  }

  lemma TilesSnoc(parents: seq<Unit>, text: Text, u: Unit, text': Text)
    requires Tiles(parents, text)
    requires text' == text + (if parents == [] then [] else SEPARATOR) + u.text
    requires u.sourceStart == |text'| - |u.text| && u.sourceEnd == |text'|
    ensures Tiles(parents + [u], text')
  {
    var all := parents + [u];
    var more := (if parents == [] then [] else SEPARATOR) + u.text;
    assert text' == text + more;
    forall k | 0 <= k < |all|
      ensures Exact(all[k], text')
    {
      if k < |parents| {
        LongerText(u, parents[k], text, more);
      }
    }
    forall k | 0 < k < |all|
      ensures Adjacent(all[k - 1], all[k], text')
    {
      if k < |parents| {
        LongerText(parents[k - 1], parents[k], text, more);
      } else {
        assert text'[|text|..|text| + 2] == SEPARATOR;
      }
    }
  }

  /** The parents and the separators between them tile the assembled text without gap or overlap. */
  lemma {:induction false} ParentsTile(blocks: seq<Block>)
    ensures Tiles(ParentUnits(blocks), Joined(blocks))
    ensures ParentUnits(blocks) == [] <==> Texts(blocks) == []
  {
    if blocks != [] {
      var before, last := blocks[..|blocks| - 1], blocks[|blocks| - 1];
      assert blocks == before + [last];
      ParentsTile(before);
      JoinedSnoc(before, last);
      if last.text != [] {
        NewParentExact(before, last);
        TilesSnoc(ParentUnits(before), Joined(before), ParentUnit(last, |before|, StartAfter(before)), Joined(blocks));
      } else {
        assert ParentUnits(before) + [] == ParentUnits(before);
      }
    }
  }

  /** A unit is a parent, or a child that lies inside the parent whose id it names. */
  lemma {:induction false} ChildrenInsideParents(blocks: seq<Block>)
    ensures forall p :: p in ParentUnits(blocks) ==> p in Units(blocks)
    ensures forall u :: u in Units(blocks) ==>
              u in ParentUnits(blocks) ||
              exists p :: p in ParentUnits(blocks) && u.parentId == p.unitId &&
                          p.sourceStart <= u.sourceStart < u.sourceEnd <= p.sourceEnd
  {
    if blocks != [] {
      var before, last := blocks[..|blocks| - 1], blocks[|blocks| - 1];
      assert blocks == before + [last];
      ChildrenInsideParents(before);
      JoinedSnoc(before, last);
      if last.text != [] {
        var parent := ParentUnit(last, |before|, StartAfter(before));
        NewParentExact(before, last);
        ChildrenExact(last.children, parent, Joined(blocks));
        assert parent in ParentUnits(blocks);
        forall p | p in ParentUnits(before) ensures p in ParentUnits(blocks) {}
      } else {
        assert ParentUnits(blocks) == ParentUnits(before) && Units(blocks) == Units(before);
      }
    }
  }
}
