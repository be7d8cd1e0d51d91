/**
 * The ARM build attributes (.ARM.attributes): a nested block of
 * subsections, each holding sub-subsections, each holding tag/value
 * attributes, flattened by the model into one tag -> value map.
 */
module ArmBuildAttributes {

  /** An attribute value is a string or an integer, depending on the tag. */
  datatype AttrValue = Text(text: string) | Number(number: int)

  datatype Attribute = Attribute(tag: string, value: AttrValue)

  datatype SubSubsection = SubSubsection(attributes: seq<Attribute>)

  datatype Subsection = Subsection(subsubsections: seq<SubSubsection>)

  /** The detached attribute set. */
  datatype ArmAttributes = ArmAttributes(tags: map<string, AttrValue>)

  /** The attributes of a run of sub-subsections, one sub-subsection after another. */
  function SubSubsectionsInOrder(subsubs: seq<SubSubsection>): seq<Attribute>
  {
    if subsubs == [] then []
    else SubSubsectionsInOrder(subsubs[..|subsubs| - 1]) + subsubs[|subsubs| - 1].attributes
  }

  /** Every attribute of the block in depth-first order: subsection, then sub-subsection, then attribute. */
  function InDepthFirstOrder(subs: seq<Subsection>): seq<Attribute>
  {
    if subs == [] then []
    else InDepthFirstOrder(subs[..|subs| - 1]) + SubSubsectionsInOrder(subs[|subs| - 1].subsubsections)
  }

  /** Inserting the attributes one by one into a map, so that a later tag overwrites an earlier one. */
  function TagMap(attrs: seq<Attribute>): map<string, AttrValue>
  {
    if attrs == [] then map[]
    else TagMap(attrs[..|attrs| - 1])[attrs[|attrs| - 1].tag := attrs[|attrs| - 1].value]
  }

  /**
   * ArmAttributes.from_elf: walks the block with three nested loops and
   * stores every attribute in a map, the last one seen for a tag winning.
   */
  method FromElf(block: seq<Subsection>) returns (a: ArmAttributes)
    ensures a.tags == TagMap(InDepthFirstOrder(block))
  {
    var tags: map<string, AttrValue> := map[];
    for i := 0 to |block|
      invariant tags == TagMap(InDepthFirstOrder(block[..i]))
    {
      ghost var before := InDepthFirstOrder(block[..i]);
      var subsubs := block[i].subsubsections;
      AppendEmpty(before);
      for j := 0 to |subsubs|
        invariant tags == TagMap(before + SubSubsectionsInOrder(subsubs[..j]))
      {
        ghost var done := before + SubSubsectionsInOrder(subsubs[..j]);
        var attrs := subsubs[j].attributes;
        AppendEmpty(done);
        for k := 0 to |attrs|
          invariant tags == TagMap(done + attrs[..k])
        {
          TagMapSnoc(done, attrs, k);
          tags := tags[attrs[k].tag := attrs[k].value];
        }
        SubSubsectionsInOrderStep(before, subsubs, j);
      }
      InDepthFirstOrderStep(block, i);
    }
    assert block[..|block|] == block;
    a := ArmAttributes(tags);
  }

  lemma AppendEmpty(s: seq<Attribute>)
    ensures s + SubSubsectionsInOrder([]) == s && s + [] == s
  {
  }

  lemma TagMapSnoc(done: seq<Attribute>, attrs: seq<Attribute>, k: int)
    requires 0 <= k < |attrs|
    ensures TagMap(done + attrs[..k + 1]) == TagMap(done + attrs[..k])[attrs[k].tag := attrs[k].value]
  {
    assert (done + attrs[..k + 1])[..|done + attrs[..k + 1]| - 1] == done + attrs[..k];
  }

  lemma SubSubsectionsInOrderStep(before: seq<Attribute>, subsubs: seq<SubSubsection>, j: int)
    requires 0 <= j < |subsubs|
    ensures before + SubSubsectionsInOrder(subsubs[..j]) + subsubs[j].attributes[..|subsubs[j].attributes|]
         == before + SubSubsectionsInOrder(subsubs[..j + 1])
  {
    assert subsubs[..j + 1][..j] == subsubs[..j];
    assert subsubs[j].attributes[..|subsubs[j].attributes|] == subsubs[j].attributes;
  }

  lemma InDepthFirstOrderStep(block: seq<Subsection>, i: int)
    requires 0 <= i < |block|
    ensures InDepthFirstOrder(block[..i]) + SubSubsectionsInOrder(block[i].subsubsections[..|block[i].subsubsections|])
         == InDepthFirstOrder(block[..i + 1])
  {
    assert block[..i + 1][..i] == block[..i];
    assert block[i].subsubsections[..|block[i].subsubsections|] == block[i].subsubsections;
  }

  // ---------------------------------------------------------------- properties of the flattening

  /** Some attribute of the sequence carries the tag. */
  predicate TagOccurs(attrs: seq<Attribute>, tag: string)
  {
    exists p :: 0 <= p < |attrs| && attrs[p].tag == tag
  }

  /** Position p holds the tag, and no later position does. */
  predicate LastOccurrence(attrs: seq<Attribute>, tag: string, p: int)
  {
    0 <= p < |attrs| && attrs[p].tag == tag && forall q :: p < q < |attrs| ==> attrs[q].tag != tag
  }

  /** The keys of the flattened map are exactly the tags that occur. */
  lemma {:induction false} TagMapKeys(attrs: seq<Attribute>, tag: string)
    ensures tag in TagMap(attrs) <==> TagOccurs(attrs, tag)
    decreases |attrs|
  {
    if attrs != [] {
      var init := attrs[..|attrs| - 1];
      TagMapKeys(init, tag);
      if TagOccurs(init, tag) {
        var p :| 0 <= p < |init| && init[p].tag == tag;
        assert attrs[p].tag == tag;
      }
      if TagOccurs(attrs, tag) && attrs[|attrs| - 1].tag != tag {
        var p :| 0 <= p < |attrs| && attrs[p].tag == tag;
        assert init[p].tag == tag;
      }
    }
  }

  /** The value stored for a tag is that of its last occurrence. */
  lemma {:induction false} TagMapLastWins(attrs: seq<Attribute>, tag: string, p: int)
    requires LastOccurrence(attrs, tag, p)
    ensures tag in TagMap(attrs) && TagMap(attrs)[tag] == attrs[p].value
    decreases |attrs|
  {
    var last := |attrs| - 1;
    if p < last {
      var init := attrs[..last];
      assert LastOccurrence(init, tag, p);
      TagMapLastWins(init, tag, p);
    }
  }

  /** A tag that occurs has a last occurrence. */
  lemma {:induction false} LastOccurrenceExists(attrs: seq<Attribute>, tag: string)
    requires TagOccurs(attrs, tag)
    ensures exists p :: LastOccurrence(attrs, tag, p)
    decreases |attrs|
  {
    var last := |attrs| - 1;
    if attrs[last].tag == tag {
      assert LastOccurrence(attrs, tag, last);
    } else {
      var init := attrs[..last];
      var p0 :| 0 <= p0 < |attrs| && attrs[p0].tag == tag;
      assert init[p0].tag == tag;
      LastOccurrenceExists(init, tag);
      var p :| LastOccurrence(init, tag, p);
      assert LastOccurrence(attrs, tag, p) by {
        forall q | p < q < |attrs| ensures attrs[q].tag != tag {
          if q < last {
            assert init[q].tag != tag;
          }
        }
      }
    }
  }

  lemma {:induction false} TagOccursConcat(a: seq<Attribute>, b: seq<Attribute>, tag: string)
    ensures TagOccurs(a + b, tag) <==> TagOccurs(a, tag) || TagOccurs(b, tag)
  {
    if TagOccurs(a + b, tag) {
      var p :| 0 <= p < |a + b| && (a + b)[p].tag == tag;
      if p >= |a| {
        assert b[p - |a|].tag == tag;
      }
    }
    if TagOccurs(a, tag) {
      var p :| 0 <= p < |a| && a[p].tag == tag;
      assert (a + b)[p].tag == tag;
    }
    if TagOccurs(b, tag) {
      var p :| 0 <= p < |b| && b[p].tag == tag;
      assert (a + b)[|a| + p].tag == tag;
    }
  }

  /** The tag is carried by some attribute of some sub-subsection. */
  predicate TagInSubSubsections(subsubs: seq<SubSubsection>, tag: string)
  {
    exists j, l :: 0 <= j < |subsubs| && 0 <= l < |subsubs[j].attributes| && subsubs[j].attributes[l].tag == tag
  }

  /** The tag is carried by some attribute anywhere in the nested block. */
  predicate TagInBlock(block: seq<Subsection>, tag: string)
  {
    exists i :: 0 <= i < |block| && TagInSubSubsections(block[i].subsubsections, tag)
  }

  lemma {:induction false} SubSubsectionsInOrderTags(subsubs: seq<SubSubsection>, tag: string)
    ensures TagOccurs(SubSubsectionsInOrder(subsubs), tag) <==> TagInSubSubsections(subsubs, tag)
    decreases |subsubs|
  {
    if subsubs != [] {
      var init := subsubs[..|subsubs| - 1];
      var lastAttrs := subsubs[|subsubs| - 1].attributes;
      SubSubsectionsInOrderTags(init, tag);
      TagOccursConcat(SubSubsectionsInOrder(init), lastAttrs, tag);
      if TagInSubSubsections(init, tag) {
        var j, l :| 0 <= j < |init| && 0 <= l < |init[j].attributes| && init[j].attributes[l].tag == tag;
        assert subsubs[j].attributes[l].tag == tag;
      }
      if TagOccurs(lastAttrs, tag) {
        var l :| 0 <= l < |lastAttrs| && lastAttrs[l].tag == tag;
        assert subsubs[|subsubs| - 1].attributes[l].tag == tag;
      }
      if TagInSubSubsections(subsubs, tag) {
        var j, l :| 0 <= j < |subsubs| && 0 <= l < |subsubs[j].attributes| && subsubs[j].attributes[l].tag == tag;
        if j < |init| {
          assert init[j].attributes[l].tag == tag;
        } else {
          assert lastAttrs[l].tag == tag;
        }
      }
    }
  }

  lemma {:induction false} InDepthFirstOrderTags(block: seq<Subsection>, tag: string)
    ensures TagOccurs(InDepthFirstOrder(block), tag) <==> TagInBlock(block, tag)
    decreases |block|
  {
    if block != [] {
      var init := block[..|block| - 1];
      var lastSubs := block[|block| - 1].subsubsections;
      InDepthFirstOrderTags(init, tag);
      SubSubsectionsInOrderTags(lastSubs, tag);
      TagOccursConcat(InDepthFirstOrder(init), SubSubsectionsInOrder(lastSubs), tag);
      if TagInBlock(init, tag) {
        var i :| 0 <= i < |init| && TagInSubSubsections(init[i].subsubsections, tag);
        assert block[i] == init[i];
      }
      if TagInBlock(block, tag) {
        var i :| 0 <= i < |block| && TagInSubSubsections(block[i].subsubsections, tag);
        if i < |init| {
          assert block[i] == init[i];
        }
      }
    }
  }

  /**
   * The flattened attribute set has exactly the tags that occur anywhere in
   * the block, and each holds the value of its last occurrence in depth-first order.
   */
  lemma FromElfKeysAndValues(block: seq<Subsection>, tag: string)
    ensures tag in TagMap(InDepthFirstOrder(block)) <==> TagInBlock(block, tag)
    ensures tag in TagMap(InDepthFirstOrder(block)) ==> exists p :: LastOccurrence(InDepthFirstOrder(block), tag, p)
    ensures forall p :: LastOccurrence(InDepthFirstOrder(block), tag, p) ==>
      tag in TagMap(InDepthFirstOrder(block)) && TagMap(InDepthFirstOrder(block))[tag] == InDepthFirstOrder(block)[p].value
  {
    TagMapKeys(InDepthFirstOrder(block), tag);
    InDepthFirstOrderTags(block, tag);
    if tag in TagMap(InDepthFirstOrder(block)) {
      LastOccurrenceExists(InDepthFirstOrder(block), tag);
    }
    forall p | LastOccurrence(InDepthFirstOrder(block), tag, p)
      ensures tag in TagMap(InDepthFirstOrder(block)) && TagMap(InDepthFirstOrder(block))[tag] == InDepthFirstOrder(block)[p].value
    {
      TagMapLastWins(InDepthFirstOrder(block), tag, p);
    }
  }
}
