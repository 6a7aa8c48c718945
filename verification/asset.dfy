/**
 * The binary representation of an image (Asset): its content id, name,
 * memoised file extension and the GeoTIFF tie point and pixel scale read from
 * the image metadata (GeoTIFF Format Specification 1.0, section 2.6.1:
 * ModelTiepointTag 33922 and ModelPixelScaleTag 33550).
 *
 * The image reader registry, the metadata it reports and Double.parseDouble
 * are parameters; the metadata DOM is a tree datatype.
 */
module Assets {
  import opened Wrappers
  import opened Decimal

  /** The extension of bytes no image reader recognises. */
  const DATA_EXTENSION: string := "data"

  /** The GeoTIFF tags the walk looks for, as the metadata tree spells their numbers. */
  const TIEPOINT_TAG: string := "33922"
  const PIXEL_SCALE_TAG: string := "33550"

  /** The seven slots of the parsed array; slot 6 counts the values parsed so far. */
  const GEO_SLOTS: nat := 7
  const COUNTER: nat := 6

  /** The walk is complete once the counter is above this. */
  const DONE: real := 5.9

  /** Slots 0..3 come from children 0, 1, 3 and 4 of a tie point; slots 4 and 5 from children 0 and 1 of a pixel scale. */
  const TIEPOINT_SLOTS: seq<(nat, nat)> := [(0, 0), (1, 1), (2, 3), (3, 4)]
  const PIXEL_SCALE_SLOTS: seq<(nat, nat)> := [(4, 0), (5, 1)]

  /** An attribute of a metadata node. */
  datatype Attr = Attr(name: string, value: string)

  /** A metadata node: its attribute map (None: getAttributes returns null) and its children in sibling order. */
  datatype Node = Node(attributes: Option<seq<Attr>>, children: seq<Node>)

  /** The content id (an MD5 digest, computed elsewhere) and its text. */
  datatype MD5Key = MD5Key(digest: string)

  /** The value of the first attribute with the given name. */
  function NamedItem(attrs: seq<Attr>, name: string): (r: Option<string>)
    ensures r.None? <==> forall k | 0 <= k < |attrs| :: attrs[k].name != name
    ensures r.Some? ==> exists k | 0 <= k < |attrs| ::
      && attrs[k].name == name && attrs[k].value == r.value
      && forall j | 0 <= j < k :: attrs[j].name != name
    decreases |attrs|
  {
    if attrs == [] then None
    else if attrs[0].name == name then Some(attrs[0].value)
    else
      var r := NamedItem(attrs[1..], name);
      assert forall k | 1 <= k < |attrs| :: attrs[k] == attrs[1..][k - 1];
      r
  }

  /**
   * extractValueFromChild: the "value" attribute of child childIdx of the
   * first child of parent, parsed. None stands for the exception thrown when
   * there is no first child, no such child, no attribute map, no "value"
   * attribute, or text that does not parse.
   */
  function ValueOfChild(parent: Node, childIdx: nat, parse: string -> Option<real>): (v: Option<real>)
    ensures v.Some? ==> |parent.children| > 0 && childIdx < |parent.children[0].children|
  {
    if parent.children == [] || childIdx >= |parent.children[0].children| then None
    else
      match parent.children[0].children[childIdx].attributes
      case None => None
      case Some(attrs) =>
        match NamedItem(attrs, "value")
        case None => None
        case Some(text) => parse(text)
  }

  /** The parsed array after part of a walk, and whether control leaves the current node now. */
  datatype Pass = Pass(result: seq<real>, halted: bool)

  predicate SlotsOk(slots: seq<(nat, nat)>) {
    forall k | 0 <= k < |slots| :: slots[k].0 < COUNTER
  }

  /**
   * The assignments result[slot] = extractValueFromChild(node, child) from the
   * j-th on, in order; one that throws leaves the earlier ones in place.
   */
  function Assign(node: Node, slots: seq<(nat, nat)>, j: nat, r: seq<real>, parse: string -> Option<real>): (p: Pass)
    requires |r| == GEO_SLOTS && SlotsOk(slots)
    ensures |p.result| == GEO_SLOTS && p.result[COUNTER] == r[COUNTER]
    ensures forall k | 0 <= k < GEO_SLOTS :: p.result[k] == r[k] || exists m | j <= m < |slots| :: slots[m].0 == k
    decreases |slots| - j
  {
    if j >= |slots| then Pass(r, false)
    else
      match ValueOfChild(node, slots[j].1, parse)
      case None => Pass(r, true)
      case Some(v) => Assign(node, slots, j + 1, r[slots[j].0 := v], parse)
  }

  /** A tag's assignments followed by adding its weight to the counter, unless an assignment threw. */
  function TagPass(node: Node, slots: seq<(nat, nat)>, weight: real, r: seq<real>, parse: string -> Option<real>): (p: Pass)
    requires |r| == GEO_SLOTS && SlotsOk(slots)
    ensures |p.result| == GEO_SLOTS
    ensures p.halted ==> p.result[COUNTER] == r[COUNTER]
    ensures !p.halted ==> p.result[COUNTER] == r[COUNTER] + weight
  {
    var p := Assign(node, slots, 0, r, parse);
    if p.halted then p else Pass(p.result[COUNTER := p.result[COUNTER] + weight], false)
  }

  predicate IsTag(a: Attr, tag: string) {
    a.name == "number" && a.value == tag
  }

  /** The body of the attribute loop for one attribute: the tie point test, then the pixel scale test. */
  function AttrStep(node: Node, a: Attr, r: seq<real>, parse: string -> Option<real>): (p: Pass)
    requires |r| == GEO_SLOTS
    ensures |p.result| == GEO_SLOTS && p.result[COUNTER] >= r[COUNTER]
  {
    var p1 := if IsTag(a, TIEPOINT_TAG) then TagPass(node, TIEPOINT_SLOTS, 4.0, r, parse) else Pass(r, false);
    if p1.halted || !IsTag(a, PIXEL_SCALE_TAG) then p1
    else TagPass(node, PIXEL_SCALE_SLOTS, 2.0, p1.result, parse)
  }

  /** The attribute loop from attribute i: it leaves the node on an exception or once the counter is above DONE. */
  function AttrLoop(node: Node, attrs: seq<Attr>, i: nat, r: seq<real>, parse: string -> Option<real>): (p: Pass)
    requires |r| == GEO_SLOTS
    ensures |p.result| == GEO_SLOTS && p.result[COUNTER] >= r[COUNTER]
    ensures !p.halted ==> p.result[COUNTER] <= DONE || (i >= |attrs| && p.result == r)
    decreases |attrs| - i
  {
    if i >= |attrs| then Pass(r, false)
    else
      var p := AttrStep(node, attrs[i], r, parse);
      if p.halted || p.result[COUNTER] > DONE then Pass(p.result, true)
      else AttrLoop(node, attrs, i + 1, p.result, parse)
  }

  /**
   * getGeoTiffMetadata(node, result): the attributes of node, then its
   * children in order, each walked with the same array, stopping after the
   * first child that completes it. An exception ends the walk of the node it
   * arose in, and its caller carries on with what was written so far.
   */
  function Walk(node: Node, r: seq<real>, parse: string -> Option<real>): (w: seq<real>)
    requires |r| == GEO_SLOTS
    ensures |w| == GEO_SLOTS && w[COUNTER] >= r[COUNTER]
    decreases node, 1, 0
  {
    var a := if node.attributes.Some? then AttrLoop(node, node.attributes.value, 0, r, parse) else Pass(r, false);
    if a.halted then a.result else ChildLoop(node, 0, a.result, parse)
  }

  /** The child loop from child k. */
  function ChildLoop(node: Node, k: nat, r: seq<real>, parse: string -> Option<real>): (w: seq<real>)
    requires |r| == GEO_SLOTS
    ensures |w| == GEO_SLOTS && w[COUNTER] >= r[COUNTER]
    decreases node, 0, |node.children| - k
  {
    if k >= |node.children| then r
    else
      var c := Walk(node.children[k], r, parse);
      if c[COUNTER] > DONE then c else ChildLoop(node, k + 1, c, parse)
  }

  /** The array the walk starts from: new double[7]. */
  function Zeros(): (z: seq<real>)
    ensures |z| == GEO_SLOTS && forall k | 0 <= k < GEO_SLOTS :: z[k] == 0.0
  {
    [0.0, 0.0, 0.0, 0.0, 0.0, 0.0, 0.0]
  }

  /** The counter values a walk from a fresh array can pass through before it completes. */
  predicate Counting(c: real) {
    c == 0.0 || c == 2.0 || c == 4.0
  }

  /** The counter values a walk can end with: still counting, or completed at 6 or 8. */
  predicate Settled(c: real) {
    Counting(c) || c == 6.0 || c == 8.0
  }

  /** One attribute adds 0, 2 or 4 to the counter (it cannot carry both tags), or leaves it when it throws. */
  lemma AttrStepCounts(node: Node, a: Attr, r: seq<real>, parse: string -> Option<real>)
    requires |r| == GEO_SLOTS
    ensures var c := AttrStep(node, a, r, parse).result[COUNTER] - r[COUNTER];
      c == 0.0 || c == 2.0 || c == 4.0
  {
  }

  lemma {:induction false} AttrLoopSettles(node: Node, attrs: seq<Attr>, i: nat, r: seq<real>, parse: string -> Option<real>)
    requires |r| == GEO_SLOTS && Counting(r[COUNTER])
    ensures var p := AttrLoop(node, attrs, i, r, parse);
      Settled(p.result[COUNTER]) && (!p.halted ==> Counting(p.result[COUNTER]))
    decreases |attrs| - i
  {
    if i < |attrs| {
      var p := AttrStep(node, attrs[i], r, parse);
      AttrStepCounts(node, attrs[i], r, parse);
      if !p.halted && p.result[COUNTER] <= DONE {
        AttrLoopSettles(node, attrs, i + 1, p.result, parse);
      }
    }
  }

  /**
   * From a counter of 0, 2 or 4 the walk ends with 0, 2, 4, 6 or 8: the
   * tie point adds 4, the pixel scale 2, and nothing is added once the
   * counter passes DONE.
   */
  lemma {:induction false} WalkSettles(node: Node, r: seq<real>, parse: string -> Option<real>)
    requires |r| == GEO_SLOTS && Counting(r[COUNTER])
    ensures Settled(Walk(node, r, parse)[COUNTER])
    decreases node, 1, 0
  {
    if node.attributes.Some? {
      AttrLoopSettles(node, node.attributes.value, 0, r, parse);
      var a := AttrLoop(node, node.attributes.value, 0, r, parse);
      if !a.halted {
        ChildLoopSettles(node, 0, a.result, parse);
      }
    } else {
      ChildLoopSettles(node, 0, r, parse);
    }
  }

  lemma {:induction false} ChildLoopSettles(node: Node, k: nat, r: seq<real>, parse: string -> Option<real>)
    requires |r| == GEO_SLOTS && Counting(r[COUNTER])
    ensures Settled(ChildLoop(node, k, r, parse)[COUNTER])
    decreases node, 0, |node.children| - k
  {
    if k < |node.children| {
      var c := Walk(node.children[k], r, parse);
      WalkSettles(node.children[k], r, parse);
      if c[COUNTER] <= DONE {
        ChildLoopSettles(node, k + 1, c, parse);
      }
    }
  }

  /**
   * A tie point whose four values parse writes them to slots 0..3 and adds 4
   * to the counter; the pixel scale slots are left alone.
   */
  lemma TiepointSets(node: Node, a: Attr, r: seq<real>, parse: string -> Option<real>, v0: real, v1: real, v3: real, v4: real)
    requires |r| == GEO_SLOTS && IsTag(a, TIEPOINT_TAG)
    requires ValueOfChild(node, 0, parse) == Some(v0) && ValueOfChild(node, 1, parse) == Some(v1)
    requires ValueOfChild(node, 3, parse) == Some(v3) && ValueOfChild(node, 4, parse) == Some(v4)
    ensures AttrStep(node, a, r, parse) == Pass([v0, v1, v3, v4, r[4], r[5], r[COUNTER] + 4.0], false)
  {
    assert Assign(node, TIEPOINT_SLOTS, 4, r[0 := v0][1 := v1][2 := v3][3 := v4], parse).result
      == [v0, v1, v3, v4, r[4], r[5], r[COUNTER]];
  }

  /** A pixel scale whose two values parse writes them to slots 4 and 5 and adds 2 to the counter. */
  lemma PixelScaleSets(node: Node, a: Attr, r: seq<real>, parse: string -> Option<real>, v0: real, v1: real)
    requires |r| == GEO_SLOTS && IsTag(a, PIXEL_SCALE_TAG)
    requires ValueOfChild(node, 0, parse) == Some(v0) && ValueOfChild(node, 1, parse) == Some(v1)
    ensures AttrStep(node, a, r, parse) == Pass([r[0], r[1], r[2], r[3], v0, v1, r[COUNTER] + 2.0], false)
  {
    assert Assign(node, PIXEL_SCALE_SLOTS, 2, r[4 := v0][5 := v1], parse).result
      == [r[0], r[1], r[2], r[3], v0, v1, r[COUNTER]];
  }

  /**
   * An exception is swallowed with the partial result kept: a tie point
   * whose second value does not parse leaves slot 0 written, the counter
   * unchanged, and the rest of the node (later attributes, all children)
   * unvisited.
   */
  lemma ThrowKeepsPartial(a: Attr, rest: seq<Attr>, children: seq<Node>, r: seq<real>, parse: string -> Option<real>, v0: real)
    requires |r| == GEO_SLOTS && IsTag(a, TIEPOINT_TAG)
    requires var node := Node(Some([a] + rest), children);
      ValueOfChild(node, 0, parse) == Some(v0) && ValueOfChild(node, 1, parse).None?
    ensures Walk(Node(Some([a] + rest), children), r, parse) == r[0 := v0]
  {
    var node := Node(Some([a] + rest), children);
    TiepointThrows(node, a, r, parse, v0);
    assert ([a] + rest)[0] == a;
  }

  /** The tie point step of that case: slot 0 written, then the exception. */
  lemma TiepointThrows(node: Node, a: Attr, r: seq<real>, parse: string -> Option<real>, v0: real)
    requires |r| == GEO_SLOTS && IsTag(a, TIEPOINT_TAG)
    requires ValueOfChild(node, 0, parse) == Some(v0) && ValueOfChild(node, 1, parse).None?
    ensures AttrStep(node, a, r, parse) == Pass(r[0 := v0], true)
  {
    assert Assign(node, TIEPOINT_SLOTS, 1, r[0 := v0], parse) == Pass(r[0 := v0], true);
  }

  /**
   * The assignments stop at the first extraction that throws (m, or none when
   * m is the end): the result holds exactly the assignments made before it,
   * and the node is left exactly when one threw.
   */
  lemma {:induction false} AssignStopsAtThrow(node: Node, slots: seq<(nat, nat)>, j: nat, m: nat, r: seq<real>,
                                              parse: string -> Option<real>)
    requires |r| == GEO_SLOTS && SlotsOk(slots) && j <= m <= |slots|
    requires forall l | j <= l < m :: ValueOfChild(node, slots[l].1, parse).Some?
    requires m < |slots| ==> ValueOfChild(node, slots[m].1, parse).None?
    ensures !Assign(node, slots[..m], j, r, parse).halted
    ensures Assign(node, slots, j, r, parse) == Pass(Assign(node, slots[..m], j, r, parse).result, m < |slots|)
    decreases m - j
  {
    if j < m {
      assert slots[..m][j] == slots[j];
      var v := ValueOfChild(node, slots[j].1, parse).value;
      AssignStopsAtThrow(node, slots, j + 1, m, r[slots[j].0 := v], parse);
    }
  }

  /** Extractions read only the node's first child: nodes that share it, or both lack one, read alike. */
  predicate SameFirstChild(n1: Node, n2: Node) {
    && (n1.children == [] <==> n2.children == [])
    && (n1.children != [] ==> n1.children[0] == n2.children[0])
  }

  lemma {:induction false} AssignSameFirstChild(n1: Node, n2: Node, slots: seq<(nat, nat)>, j: nat, r: seq<real>,
                                                parse: string -> Option<real>)
    requires |r| == GEO_SLOTS && SlotsOk(slots) && SameFirstChild(n1, n2)
    ensures Assign(n1, slots, j, r, parse) == Assign(n2, slots, j, r, parse)
    decreases |slots| - j
  {
    if j < |slots| {
      var v := ValueOfChild(n1, slots[j].1, parse);
      assert v == ValueOfChild(n2, slots[j].1, parse);
      if v.Some? {
        AssignSameFirstChild(n1, n2, slots, j + 1, r[slots[j].0 := v.value], parse);
      }
    }
  }

  lemma AttrStepSameFirstChild(n1: Node, n2: Node, a: Attr, r: seq<real>, parse: string -> Option<real>)
    requires |r| == GEO_SLOTS && SameFirstChild(n1, n2)
    ensures AttrStep(n1, a, r, parse) == AttrStep(n2, a, r, parse)
  {
    AssignSameFirstChild(n1, n2, TIEPOINT_SLOTS, 0, r, parse);
    var p1 := if IsTag(a, TIEPOINT_TAG) then TagPass(n1, TIEPOINT_SLOTS, 4.0, r, parse) else Pass(r, false);
    AssignSameFirstChild(n1, n2, PIXEL_SCALE_SLOTS, 0, p1.result, parse);
  }

  lemma {:induction false} AttrLoopSameFirstChild(n1: Node, n2: Node, attrs: seq<Attr>, i: nat, r: seq<real>,
                                                  parse: string -> Option<real>)
    requires |r| == GEO_SLOTS && SameFirstChild(n1, n2)
    ensures AttrLoop(n1, attrs, i, r, parse) == AttrLoop(n2, attrs, i, r, parse)
    decreases |attrs| - i
  {
    if i < |attrs| {
      AttrStepSameFirstChild(n1, n2, attrs[i], r, parse);
      var p := AttrStep(n1, attrs[i], r, parse);
      if !p.halted && p.result[COUNTER] <= DONE {
        AttrLoopSameFirstChild(n1, n2, attrs, i + 1, p.result, parse);
      }
    }
  }

  /**
   * Whatever leaves the attribute loop early, an exception or the counter
   * passing DONE, ends the node: the walk returns the array as the loop left
   * it, with every assignment made before a throw, and walks no child, so
   * the children beyond the first, which extractions read, do not matter.
   */
  lemma {:induction false} HaltEndsNode(attrs: seq<Attr>, cs: seq<Node>, cs': seq<Node>, r: seq<real>, parse: string -> Option<real>)
    requires |r| == GEO_SLOTS && SameFirstChild(Node(Some(attrs), cs), Node(Some(attrs), cs'))
    requires AttrLoop(Node(Some(attrs), cs), attrs, 0, r, parse).halted
    ensures Walk(Node(Some(attrs), cs), r, parse) == AttrLoop(Node(Some(attrs), cs), attrs, 0, r, parse).result
    ensures Walk(Node(Some(attrs), cs'), r, parse) == Walk(Node(Some(attrs), cs), r, parse)
  {
    var n1, n2 := Node(Some(attrs), cs), Node(Some(attrs), cs');
    AttrLoopSameFirstChild(n1, n2, attrs, 0, r, parse);
    var a := AttrLoop(n1, attrs, 0, r, parse);
    assert Walk(n1, r, parse) == a.result;
    assert Walk(n2, r, parse) == a.result;
  }

  /**
   * The walk returns as soon as the counter passes DONE in the attribute
   * loop: attributes after that point and all children are never looked at.
   */
  lemma {:induction false} CompletedAttrsIgnoreRest(node: Node, attrs: seq<Attr>, more: seq<Attr>, i: nat,
                                                    r: seq<real>, parse: string -> Option<real>)
    requires |r| == GEO_SLOTS && i <= |attrs| && r[COUNTER] <= DONE
    requires AttrLoop(node, attrs, i, r, parse).result[COUNTER] > DONE
    ensures AttrLoop(node, attrs + more, i, r, parse) == AttrLoop(node, attrs, i, r, parse)
    decreases |attrs| - i
  {
    assert (attrs + more)[i] == attrs[i];
    var p := AttrStep(node, attrs[i], r, parse);
    if !p.halted && p.result[COUNTER] <= DONE {
      CompletedAttrsIgnoreRest(node, attrs, more, i + 1, p.result, parse);
    }
  }

  /**
   * The walk returns as soon as a child subtree completes it: appending
   * further children changes nothing.
   */
  lemma {:induction false} CompletedChildrenIgnoreRest(attrs: Option<seq<Attr>>, cs: seq<Node>, more: seq<Node>, k: nat,
                                                       r: seq<real>, parse: string -> Option<real>)
    requires |r| == GEO_SLOTS && k <= |cs|
    requires ChildLoop(Node(attrs, cs), k, r, parse)[COUNTER] > DONE
    requires r[COUNTER] <= DONE
    ensures ChildLoop(Node(attrs, cs + more), k, r, parse) == ChildLoop(Node(attrs, cs), k, r, parse)
    decreases |cs| - k
  {
    assert (cs + more)[k] == cs[k];
    var c := Walk(cs[k], r, parse);
    if c[COUNTER] <= DONE {
      CompletedChildrenIgnoreRest(attrs, cs, more, k + 1, c, parse);
    }
  }

  /**
   * getGeoTiffMetadata on an existing array: result[..] becomes the walk of
   * node from its old contents.
   */
  method GetGeoTiffMetadata(node: Node, result: array<real>, parse: string -> Option<real>)
    requires result.Length == GEO_SLOTS
    modifies result
    ensures result[..] == Walk(node, old(result[..]), parse)
    decreases node, 1
  {
    ghost var r0 := result[..];
    if node.attributes.Some? {
      var attrs := node.attributes.value;
      var i := 0;
      while i < |attrs|
        invariant 0 <= i <= |attrs|
        invariant AttrLoop(node, attrs, i, result[..], parse) == AttrLoop(node, attrs, 0, r0, parse)
      {
        var halted := AttributeStep(node, attrs[i], result, parse);
        if halted || result[COUNTER] > DONE {
          return;
        }
        i := i + 1;
      }
    }
    var k := 0;
    while k < |node.children|
      invariant 0 <= k <= |node.children|
      invariant ChildLoop(node, k, result[..], parse) == Walk(node, r0, parse)
    {
      GetGeoTiffMetadata(node.children[k], result, parse);
      if result[COUNTER] > DONE {
        return;
      }
      k := k + 1;
    }
  }

  /** The two tag tests of the attribute loop, on the array in place; true when an extraction threw. */
  method AttributeStep(node: Node, a: Attr, result: array<real>, parse: string -> Option<real>) returns (threw: bool)
    requires result.Length == GEO_SLOTS
    modifies result
    ensures Pass(result[..], threw) == AttrStep(node, a, old(result[..]), parse)
  {
    threw := false;
    if IsTag(a, TIEPOINT_TAG) {
      threw := AssignFromChildren(node, TIEPOINT_SLOTS, result, parse);
      if threw {
        return;
      }
      result[COUNTER] := result[COUNTER] + 4.0;
    }
    if IsTag(a, PIXEL_SCALE_TAG) {
      threw := AssignFromChildren(node, PIXEL_SCALE_SLOTS, result, parse);
      if threw {
        return;
      }
      result[COUNTER] := result[COUNTER] + 2.0;
    }
  }

  /** result[slot] = extractValueFromChild(node, child) for each pair in order; true when one threw. */
  method AssignFromChildren(node: Node, slots: seq<(nat, nat)>, result: array<real>, parse: string -> Option<real>)
    returns (threw: bool)
    requires result.Length == GEO_SLOTS && SlotsOk(slots)
    modifies result
    ensures Pass(result[..], threw) == Assign(node, slots, 0, old(result[..]), parse)
  {
    ghost var r0 := result[..];
    var j := 0;
    while j < |slots|
      invariant 0 <= j <= |slots|
      invariant Assign(node, slots, j, result[..], parse) == Assign(node, slots, 0, r0, parse)
    {
      var v := ValueOfChild(node, slots[j].1, parse);
      if v.None? {
        return true;
      }
      result[slots[j].0] := v.value;
      j := j + 1;
    }
    return false;
  }

  /** getGeoTiffMetadata(tree, null): the walk of tree from a fresh array. */
  method NewGeoTiffMetadata(tree: Node, parse: string -> Option<real>) returns (pts: array<real>)
    ensures fresh(pts) && pts.Length == GEO_SLOTS
    ensures pts[..] == Walk(tree, Zeros(), parse)
  {
    pts := new real[GEO_SLOTS](_ => 0.0);
    assert pts[..] == Zeros();
    GetGeoTiffMetadata(tree, pts, parse);
  }

  /** The metadata of the first image, as the reader reports it. */
  datatype Metadata =
    | MetadataError            // getImageMetadata threw an IOException
    | NoMetadata               // it returned null
    | NoFormatNames            // getMetadataFormatNames returned null
    | Trees(trees: seq<Node>)  // one tree per metadata format name, in order

  /** What probing the bytes yields. */
  datatype Probe =
    | StreamError                                 // createImageInputStream threw an IOException
    | NoReader                                    // no reader recognises the bytes
    | Reader(formatName: string, metadata: Metadata)

  /** The first tree whose walk completes: the parsed array geoopts ends with. */
  function FirstGeo(trees: seq<Node>, parse: string -> Option<real>): (g: Option<seq<real>>)
    ensures g.Some? ==> |g.value| == GEO_SLOTS && g.value[COUNTER] > DONE
    ensures g.Some? ==> exists k | 0 <= k < |trees| ::
      && g.value == Walk(trees[k], Zeros(), parse)
      && forall m | 0 <= m < k :: Walk(trees[m], Zeros(), parse)[COUNTER] <= DONE
    ensures g.None? <==> forall k | 0 <= k < |trees| :: Walk(trees[k], Zeros(), parse)[COUNTER] <= DONE
    decreases |trees|
  {
    if trees == [] then None
    else
      var w := Walk(trees[0], Zeros(), parse);
      if w[COUNTER] > DONE then Some(w)
      else
        var g := FirstGeo(trees[1..], parse);
        assert forall k | 1 <= k < |trees| :: trees[k] == trees[1..][k - 1];
        assert g.Some? ==> exists k | 1 <= k < |trees| ::
          && g.value == Walk(trees[k], Zeros(), parse)
          && forall m | 0 <= m < k :: Walk(trees[m], Zeros(), parse)[COUNTER] <= DONE;
        g
  }

  /** ASCII lower case, as String.toLowerCase maps reader format names. */
  function Lower(s: string): (t: string)
    ensures |t| == |s|
    ensures forall k | 0 <= k < |s| :: t[k] == if 'A' <= s[k] <= 'Z' then (s[k] as int + 32) as char else s[k]
  {
    seq(|s|, k requires 0 <= k < |s| => if 'A' <= s[k] <= 'Z' then (s[k] as int + 32) as char else s[k])
  }

  /** What a probe does to geoopts: nothing, or set it (to null or to a completed array). */
  datatype GeoUpdate = KeepGeo | SetGeo(geo: Option<seq<real>>)

  datatype Probed = Probed(extension: string, update: GeoUpdate)

  /**
   * The body of getImageExtension when extension is null. The extension stays
   * empty for a missing or short image and when opening the stream throws; an
   * IOException from getImageMetadata keeps the reader's format name, even an
   * empty one; otherwise an empty name becomes "data".
   */
  function Probing(image: Option<seq<bv8>>, probe: seq<bv8> -> Probe, parse: string -> Option<real>): (p: Probed)
    ensures p.extension == "" <==>
      image.None? || |image.value| < 4 || probe(image.value).StreamError?
      || (probe(image.value).Reader? && probe(image.value).metadata.MetadataError? && probe(image.value).formatName == "")
    ensures image.Some? && |image.value| >= 4 && probe(image.value).NoReader? ==> p == Probed(DATA_EXTENSION, KeepGeo)
    ensures image.Some? && |image.value| >= 4 && probe(image.value).Reader? ==>
      var rd := probe(image.value);
      && p.extension == (if rd.metadata.MetadataError? || rd.formatName != "" then Lower(rd.formatName) else DATA_EXTENSION)
      && p.update == SetGeo(if rd.metadata.Trees? then FirstGeo(rd.metadata.trees, parse) else None)
    ensures p.update.SetGeo? <==> image.Some? && |image.value| >= 4 && probe(image.value).Reader?
    ensures p.update.SetGeo? && p.update.geo.Some? ==>
      |p.update.geo.value| == GEO_SLOTS && p.update.geo.value[COUNTER] > DONE
  {
    if image.None? || |image.value| < 4 then Probed("", KeepGeo)
    else
      match probe(image.value)
      case StreamError => Probed("", KeepGeo)
      case NoReader => Probed(DATA_EXTENSION, KeepGeo)
      case Reader(format, metadata) =>
        var ext := Lower(format);
        match metadata
        case MetadataError => Probed(ext, SetGeo(None))
        case NoMetadata => Probed(if ext == "" then DATA_EXTENSION else ext, SetGeo(None))
        case NoFormatNames => Probed(if ext == "" then DATA_EXTENSION else ext, SetGeo(None))
        case Trees(trees) => Probed(if ext == "" then DATA_EXTENSION else ext, SetGeo(FirstGeo(trees, parse)))
  }

  function ApplyGeo(geo: Option<seq<real>>, u: GeoUpdate): Option<seq<real>> {
    match u
    case KeepGeo => geo
    case SetGeo(g) => g
  }

  /** Bytes that some reader recognises under a non-empty name get that name in lower case. */
  lemma ReaderNameIsExtension(image: seq<bv8>, probe: seq<bv8> -> Probe, parse: string -> Option<real>)
    requires |image| >= 4 && probe(image).Reader? && probe(image).formatName != ""
    ensures Probing(Some(image), probe, parse).extension == Lower(probe(image).formatName)
  {
  }

  class Asset {
    var id: Option<MD5Key>
    var name: Option<string>
    var extension: Option<string>
    var image: Option<seq<bv8>>
    var geoopts: array?<real>

    ghost predicate Valid()
      reads this
    {
      geoopts != null ==> geoopts.Length == GEO_SLOTS
    }

    /** The contents of geoopts, None for null. */
    function Geo(): Option<seq<real>>
      reads this, geoopts
    {
      if geoopts == null then None else Some(geoopts[..])
    }

    /** Asset(name, image): with bytes, the id is their digest and the extension is probed at once. */
    constructor (name: Option<string>, image: Option<seq<bv8>>, digest: seq<bv8> -> MD5Key,
                 probe: seq<bv8> -> Probe, parse: string -> Option<real>)
      ensures Valid()
      ensures this.name == name && this.image == image
      ensures image.None? ==> id.None? && extension.None? && Geo().None?
      ensures image.Some? ==>
        && id == Some(digest(image.value))
        && extension == Some(Probing(image, probe, parse).extension)
        && Geo() == ApplyGeo(None, Probing(image, probe, parse).update)
    {
      this.name := name;
      this.image := image;
      this.id := None;
      this.extension := None;
      this.geoopts := null;
      new;
      if image.Some? {
        id := Some(digest(image.value));
        var _ := GetImageExtension(probe, parse);
      }
    }

    /** Asset(id): an asset known only by its id. */
    constructor FromId(id: MD5Key)
      ensures Valid()
      ensures this.id == Some(id) && name.None? && image.None? && extension.None? && Geo().None?
    {
      this.id := Some(id);
      name := None;
      image := None;
      extension := None;
      geoopts := null;
    }

    /**
     * getImageExtension: computed once, while extension is null, and
     * returned unchanged afterwards.
     */
    method GetImageExtension(probe: seq<bv8> -> Probe, parse: string -> Option<real>) returns (ext: string)
      requires Valid()
      modifies this
      ensures Valid()
      ensures id == old(id) && name == old(name) && image == old(image)
      ensures old(extension).Some? ==> ext == old(extension).value && extension == old(extension) && geoopts == old(geoopts)
      ensures old(extension).None? ==>
        && ext == Probing(image, probe, parse).extension && extension == Some(ext)
        && Geo() == ApplyGeo(old(Geo()), Probing(image, probe, parse).update)
    {
      if extension.Some? {
        return extension.value;
      }
      extension := Some("");
      if image.None? || |image.value| < 4 {
        return "";
      }
      var probed := probe(image.value);
      if probed.StreamError? {
        return "";
      }
      if probed.Reader? {
        extension := Some(Lower(probed.formatName));
        geoopts := null;
        if probed.metadata.MetadataError? {
          return extension.value;
        }
        if probed.metadata.Trees? {
          ScanTrees(probed.metadata.trees, parse);
        }
      }
      if extension.value == "" {
        extension := Some(DATA_EXTENSION);
      }
      ext := extension.value;
    }

    /** The format-name loop: walk each tree until one completes, and keep that array. */
    method ScanTrees(trees: seq<Node>, parse: string -> Option<real>)
      requires geoopts == null
      modifies this
      ensures id == old(id) && name == old(name) && image == old(image) && extension == old(extension)
      ensures Valid() && Geo() == FirstGeo(trees, parse)
    {
      var i := 0;
      while geoopts == null && i < |trees|
        invariant 0 <= i <= |trees|
        invariant id == old(id) && name == old(name) && image == old(image) && extension == old(extension)
        invariant geoopts == null ==> FirstGeo(trees[i..], parse) == FirstGeo(trees, parse)
        invariant geoopts != null ==> geoopts.Length == GEO_SLOTS && Some(geoopts[..]) == FirstGeo(trees, parse)
        decreases |trees| - i
      {
        var pts := NewGeoTiffMetadata(trees[i], parse);
        assert trees[i..][0] == trees[i] && trees[i..][1..] == trees[i + 1..];
        if pts[COUNTER] > DONE {
          geoopts := pts;
        }
        i := i + 1;
      }
      if geoopts == null {
        assert trees[i..] == [];
      }
    }

    /** setImage: new bytes, and the extension computed afresh. */
    method SetImage(image: Option<seq<bv8>>, probe: seq<bv8> -> Probe, parse: string -> Option<real>)
      requires Valid()
      modifies this
      ensures Valid()
      ensures this.image == image && id == old(id) && name == old(name)
      ensures extension == Some(Probing(image, probe, parse).extension)
      ensures Geo() == ApplyGeo(old(Geo()), Probing(image, probe, parse).update)
    {
      this.image := image;
      extension := None;
      var _ := GetImageExtension(probe, parse);
    }

    /** getGeopts: a copy of geoopts, or null. */
    method GetGeopts() returns (r: array?<real>)
      ensures geoopts == null ==> r == null
      ensures geoopts != null ==> r != null && fresh(r) && r[..] == geoopts[..]
    {
      if geoopts == null {
        return null;
      }
      var g := geoopts;
      r := new real[g.Length](k requires 0 <= k < g.Length reads g => g[k]);
    }

    /** The id's text, "null" when there is none. */
    function IdText(): string
      reads this
    {
      if id.Some? then id.value.digest else "null"
    }

    function NameText(): string
      reads this
    {
      if name.Some? then name.value else "null"
    }

    /** toString: id/name(length), with "-" for the length when there is no image. */
    function ToString(): (s: string)
      reads this
      ensures image.None? ==> s == IdText() + "/" + NameText() + ['('] + "-)"
      ensures image.Some? ==> s == IdText() + "/" + NameText() + ['('] + (IntToString(|image.value|) + ")")
    {
      IdText() + "/" + NameText() + "(" + (if image.Some? then IntToString(|image.value|) else "-") + ")"
    }

    /** hashCode: the id's hash; None stands for the NullPointerException of an asset without id. */
    function HashCode(hash: MD5Key -> int): (h: Option<int>)
      reads this
      ensures h.Some? <==> id.Some?
      ensures h.Some? ==> h.value == hash(id.value)
    {
      if id.Some? then Some(hash(id.value)) else None
    }

    /**
     * equals: false for null, the comparison of the ids otherwise; None
     * stands for the NullPointerException when the other asset has no id.
     */
    function Equals(other: Asset?): (r: Option<bool>)
      reads this, other
      ensures other == null ==> r == Some(false)
      ensures other != null ==> (r.None? <==> other.id.None?)
      ensures other != null && r.Some? ==> (r.value <==> other.id == id)
    {
      if other == null then Some(false)
      else if other.id.None? then None
      else Some(other.id == id)
    }
  }

  /** Equal assets hash alike. */
  lemma EqualsAgreesWithHashCode(a: Asset, b: Asset, hash: MD5Key -> int)
    requires a.Equals(b) == Some(true)
    ensures a.HashCode(hash).Some? && a.HashCode(hash) == b.HashCode(hash)
  {
  }

  /** Between assets with ids, equals is symmetric, and every asset with an id equals itself. */
  lemma EqualsSymmetric(a: Asset, b: Asset)
    requires a.id.Some? && b.id.Some?
    ensures a.Equals(b) == b.Equals(a) && a.Equals(a) == Some(true)
  {
  }

  /** The text of an asset gives away whether it holds bytes and how many. */
  lemma ToStringShowsLength(a: Asset, b: Asset)
    requires a.ToString() == b.ToString()
    ensures a.image.None? <==> b.image.None?
    ensures a.image.Some? ==> |a.image.value| == |b.image.value|
  {
    var tailA := if a.image.Some? then IntToString(|a.image.value|) + ")" else "-)";
    var tailB := if b.image.Some? then IntToString(|b.image.value|) + ")" else "-)";
    if a.image.Some? {
      IntToStringHasNoSeparator(|a.image.value|);
      NatTextIsNotDash(|a.image.value|);
    }
    if b.image.Some? {
      IntToStringHasNoSeparator(|b.image.value|);
      NatTextIsNotDash(|b.image.value|);
    }
    assert '(' !in tailA && '(' !in tailB;
    SplitAtLastSeparator(a.IdText() + "/" + a.NameText(), tailA, b.IdText() + "/" + b.NameText(), tailB, '(');
    if a.image.Some? && b.image.Some? {
      assert IntToString(|a.image.value|) == tailA[..|tailA| - 1] == IntToString(|b.image.value|);
      IntToStringInjective(|a.image.value|, |b.image.value|);
    }
  }

  lemma NatTextIsNotDash(n: nat)
    ensures IntToString(n) + ")" != "-)"
  {
    var s := IntToString(n);
    ParseIntToString(n);
    assert |s| == 1 ==> (s + ")")[0] == s[0];
  }
}
