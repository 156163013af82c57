/** What the packed form promises its readers, proved about the HTML packer's item lists. */
module HtmlPackerProperties {
  import opened Wrappers
  import opened JavaString
  import opened HtmlPacker

  // Failure

  /** A node of a type the packer does not know, here or anywhere below. */
  predicate Unexpected(n: Node)
    decreases n
  {
    n.Other? || (n.Element? && exists k :: 0 <= k < |n.children| && Unexpected(n.children[k]))
  }

  /** Packing fails, with IllegalStateException, exactly when the tree holds an unexpected node. */
  lemma {:induction false} PackedFails(e: ElementNode)
    ensures Packed(e).Err? <==> Unexpected(e)
    decreases e
  {
    ChildrenFail(e.children, false);
  }

  lemma {:induction false} ChildrenFail(cs: seq<Node>, pending: bool)
    ensures ChildItems(cs, pending).Err? <==> exists k :: 0 <= k < |cs| && Unexpected(cs[k])
    decreases cs
  {
    if cs != [] {
      var c := cs[0];
      var rest := cs[1..];
      ChildrenFail(rest, false);
      ChildrenFail(rest, true);
      ChildrenFail(rest, pending);
      if c.Element? {
        PackedFails(c);
      }
      if exists k :: 0 <= k < |rest| && Unexpected(rest[k]) {
        var k :| 0 <= k < |rest| && Unexpected(rest[k]);
        assert cs[k + 1] == rest[k];
      }
      if exists k :: 0 <= k < |cs| && Unexpected(cs[k]) {
        var k :| 0 <= k < |cs| && Unexpected(cs[k]);
        if k > 0 {
          assert rest[k - 1] == cs[k];
        }
      }
    }
  }

  // The children

  /** Each 0 is followed by a nested array or ends the list: one 0 per run of white space. */
  predicate ZerosBeforeArrays(items: seq<Item>)
  {
    forall k :: 0 <= k < |items| && items[k] == Zero ==> k == |items| - 1 || items[k + 1].Arr?
  }

  /** No string among the items could be read as an attribute name. */
  predicate NoAttrNames(items: seq<Item>)
  {
    forall k :: 0 <= k < |items| && items[k].Str? ==> !IsAttrName(items[k].text)
  }

  lemma ShapeConcat(xs: seq<Item>, ys: seq<Item>)
    requires ZerosBeforeArrays(xs) && NoAttrNames(xs) && ZerosBeforeArrays(ys) && NoAttrNames(ys)
    requires xs != [] ==> xs[|xs| - 1] != Zero
    ensures ZerosBeforeArrays(xs + ys) && NoAttrNames(xs + ys)
  {
    var zs := xs + ys;
    forall k | 0 <= k < |zs| && zs[k] == Zero
      ensures k == |zs| - 1 || zs[k + 1].Arr?
    {
      if k >= |xs| {
        assert ys[k - |xs|] == Zero;
      }
    }
    forall k | 0 <= k < |zs| && zs[k].Str?
      ensures !IsAttrName(zs[k].text)
    {
      if k >= |xs| {
        assert zs[k] == ys[k - |xs|];
      }
    }
  }

  /**
   * The children's items: a 0 only before an element's array or at the close, and no text
   * that a reader could take for an attribute name.
   */
  lemma {:induction false} ChildItemsShape(cs: seq<Node>, pending: bool)
    requires ChildItems(cs, pending).Ok?
    ensures ZerosBeforeArrays(ChildItems(cs, pending).value)
    ensures NoAttrNames(ChildItems(cs, pending).value)
    decreases cs
  {
    if cs != [] {
      var c := cs[0];
      var rest := cs[1..];
      if c.Element? {
        ElementChild(cs, pending);
        ChildItemsShape(rest, false);
        ShapeConcat(Space(pending) + [Arr(Packed(c).value)], ChildItems(rest, false).value);
      } else if c.Text? || c.CData? {
        TextChild(cs, pending);
        if IsWhitespace(c.data) {
          ChildItemsShape(rest, true);
        } else {
          ChildItemsShape(rest, false);
          ShapeConcat([Str(TextItem(c.data, pending))], ChildItems(rest, false).value);
        }
      } else if c.Comment? || c.Instruction? {
        IgnoredChild(cs, pending);
        ChildItemsShape(rest, pending);
      } else {
        UnexpectedChild(cs, pending);
      }
    }
  }

  /** The element children, in document order. */
  function ElementChildren(cs: seq<Node>): (r: seq<ElementNode>)
    ensures forall n :: n in r <==> n in cs && n.Element?
  {
    if cs == [] then []
    else if cs[0].Element? then [cs[0]] + ElementChildren(cs[1..])
    else ElementChildren(cs[1..])
  }

  /** The nested arrays among the items, in order. */
  function Arrays(items: seq<Item>): seq<seq<Item>>
  {
    if items == [] then []
    else (if items[0].Arr? then [items[0].items] else []) + Arrays(items[1..])
  }

  lemma {:induction false} ArraysConcat(xs: seq<Item>, ys: seq<Item>)
    ensures Arrays(xs + ys) == Arrays(xs) + Arrays(ys)
  {
    if xs != [] {
      assert (xs + ys)[0] == xs[0];
      assert (xs + ys)[1..] == xs[1..] + ys;
      ArraysConcat(xs[1..], ys);
      var head := if xs[0].Arr? then [xs[0].items] else [];
      assert head + Arrays(xs[1..]) + Arrays(ys) == head + (Arrays(xs[1..]) + Arrays(ys));
    } else {
      assert xs + ys == ys;
    }
  }

  /** Each element packs to the array at the same place in the other sequence. */
  predicate PackedInOrder(es: seq<ElementNode>, arrays: seq<seq<Item>>)
    decreases |es|
  {
    if es == [] then arrays == []
    else arrays != [] && Packed(es[0]) == Ok(arrays[0]) && PackedInOrder(es[1..], arrays[1..])
  }

  lemma {:induction false} PackedInOrderIndexed(es: seq<ElementNode>, arrays: seq<seq<Item>>)
    requires PackedInOrder(es, arrays)
    ensures |arrays| == |es| && forall k :: 0 <= k < |arrays| ==> Packed(es[k]) == Ok(arrays[k])
    decreases |es|
  {
    if es != [] {
      PackedInOrderIndexed(es[1..], arrays[1..]);
      forall k | 0 <= k < |arrays| ensures Packed(es[k]) == Ok(arrays[k]) {
        if k > 0 {
          assert es[k] == es[1..][k - 1];
          assert arrays[k] == arrays[1..][k - 1];
        }
      }
    }
  }

  /** The element children become the nested arrays, one each and in document order. */
  lemma ChildArraysInOrder(cs: seq<Node>, pending: bool)
    requires ChildItems(cs, pending).Ok?
    ensures var arrays := Arrays(ChildItems(cs, pending).value);
            |arrays| == |ElementChildren(cs)|
            && forall k :: 0 <= k < |arrays| ==> Packed(ElementChildren(cs)[k]) == Ok(arrays[k])
  {
    ChildArraysPaired(cs, pending);
    PackedInOrderIndexed(ElementChildren(cs), Arrays(ChildItems(cs, pending).value));
  }

  lemma {:induction false} ChildArraysPaired(cs: seq<Node>, pending: bool)
    requires ChildItems(cs, pending).Ok?
    ensures PackedInOrder(ElementChildren(cs), Arrays(ChildItems(cs, pending).value))
    decreases cs
  {
    if cs != [] {
      var c := cs[0];
      var rest := cs[1..];
      if c.Element? {
        ElementChild(cs, pending);
        ChildArraysPaired(rest, false);
        ElementArraysPaired(cs, pending);
      } else if c.Text? || c.CData? {
        TextChild(cs, pending);
        assert ElementChildren(cs) == ElementChildren(rest);
        if IsWhitespace(c.data) {
          ChildArraysPaired(rest, true);
        } else {
          ChildArraysPaired(rest, false);
          TextArraysPaired(cs, pending);
        }
      } else if c.Comment? || c.Instruction? {
        IgnoredChild(cs, pending);
        assert ElementChildren(cs) == ElementChildren(rest);
        ChildArraysPaired(rest, pending);
      } else {
        UnexpectedChild(cs, pending);
      }
    } else {
      assert Arrays(Space(pending)) == [];
    }
  }

  /** An element child puts its own array in front of the rest's. */
  lemma ElementArraysPaired(cs: seq<Node>, pending: bool)
    requires cs != [] && cs[0].Element? && ChildItems(cs, pending).Ok?
    requires ChildItems(cs[1..], false).Ok?
    requires PackedInOrder(ElementChildren(cs[1..]), Arrays(ChildItems(cs[1..], false).value))
    ensures PackedInOrder(ElementChildren(cs), Arrays(ChildItems(cs, pending).value))
  {
    var c := cs[0];
    ElementChild(cs, pending);
    var a := Packed(c).value;
    var items := ChildItems(cs[1..], false).value;
    ArraysConcat(Space(pending) + [Arr(a)], items);
    ArraysConcat(Space(pending), [Arr(a)]);
    assert Arrays([Arr(a)]) == [a];
    assert Arrays(Space(pending)) == [];
    var arrays := Arrays(ChildItems(cs, pending).value);
    assert arrays == [a] + Arrays(items);
    assert arrays[1..] == Arrays(items);
    assert ElementChildren(cs) == [c] + ElementChildren(cs[1..]);
    assert ElementChildren(cs)[1..] == ElementChildren(cs[1..]);
    assert ElementChildren(cs)[0] == c && arrays[0] == a;
  }

  /** A text child that is not white space adds a string but no array. */
  lemma TextArraysPaired(cs: seq<Node>, pending: bool)
    requires cs != [] && (cs[0].Text? || cs[0].CData?) && !IsWhitespace(cs[0].data)
    requires ChildItems(cs, pending).Ok? && ChildItems(cs[1..], false).Ok?
    requires PackedInOrder(ElementChildren(cs[1..]), Arrays(ChildItems(cs[1..], false).value))
    ensures PackedInOrder(ElementChildren(cs), Arrays(ChildItems(cs, pending).value))
  {
    var c := cs[0];
    TextChild(cs, pending);
    var items := ChildItems(cs[1..], false).value;
    assert ChildItems(cs, pending).value == [Str(TextItem(c.data, pending))] + items;
    ArraysConcat([Str(TextItem(c.data, pending))], items);
    assert Arrays([Str(TextItem(c.data, pending))]) == [];
    assert Arrays(ChildItems(cs, pending).value) == Arrays(items);
    assert ElementChildren(cs) == ElementChildren(cs[1..]);
  }

  /** The children other than comments and processing instructions. */
  function Significant(cs: seq<Node>): (r: seq<Node>)
    ensures forall n :: n in r <==> n in cs && !n.Comment? && !n.Instruction?
  {
    if cs == [] then []
    else if cs[0].Comment? || cs[0].Instruction? then Significant(cs[1..])
    else [cs[0]] + Significant(cs[1..])
  }

  /** Comments and processing instructions leave no trace, not even in the white space handling. */
  lemma {:induction false} IgnoredChildrenVanish(cs: seq<Node>, pending: bool)
    ensures ChildItems(cs, pending) == ChildItems(Significant(cs), pending)
    decreases cs
  {
    if cs != [] {
      var rest := cs[1..];
      IgnoredChildrenVanish(rest, false);
      IgnoredChildrenVanish(rest, true);
      if !(cs[0].Comment? || cs[0].Instruction?) {
        var s := Significant(cs);
        assert s[0] == cs[0] && s[1..] == Significant(rest);
      }
    }
  }

  // The attributes

  /** Each listed attribute becomes the two strings '@' + name and value, in order. */
  lemma {:induction false} AttrItemsArePairs(attrs: seq<Attr>)
    ensures |AttrItems(attrs)| == 2 * |ListedAttrs(attrs)|
    ensures forall k :: 0 <= k < |ListedAttrs(attrs)| ==>
      AttrItems(attrs)[2 * k] == Str("@" + ListedAttrs(attrs)[k].name)
      && AttrItems(attrs)[2 * k + 1] == Str(ListedAttrs(attrs)[k].value)
  {
    if attrs != [] {
      var init := attrs[..|attrs| - 1];
      AttrItemsArePairs(init);
    }
  }

  /**
   * How a reader counts the attribute pairs from item i on: while an item is a string that
   * begins with exactly one '@' and a string follows it.
   */
  function AttrPairsAt(items: seq<Item>, i: nat): nat
    decreases |items| - i
  {
    if i + 1 < |items| && items[i].Str? && IsAttrName(items[i].text) && items[i + 1].Str?
    then 1 + AttrPairsAt(items, i + 2)
    else 0
  }

  lemma {:induction false} CountPairs(items: seq<Item>, i: nat, n: nat)
    requires i + 2 * n <= |items|
    requires forall m :: 0 <= m < n ==> items[i + 2 * m].Str? && IsAttrName(items[i + 2 * m].text) && items[i + 2 * m + 1].Str?
    requires i + 2 * n < |items| && items[i + 2 * n].Str? ==> !IsAttrName(items[i + 2 * n].text)
    ensures AttrPairsAt(items, i) == n
    decreases n
  {
    if n > 0 {
      assert items[i + 2 * 0].Str?;
      forall m | 0 <= m < n - 1
        ensures items[i + 2 + 2 * m].Str? && IsAttrName(items[i + 2 + 2 * m].text) && items[i + 2 + 2 * m + 1].Str?
      {
        assert i + 2 * (m + 1) == i + 2 + 2 * m;
      }
      CountPairs(items, i + 2, n - 1);
    }
  }

  lemma AtName(name: string)
    requires !("@" <= name)
    ensures IsAttrName("@" + name)
  {
    if |name| > 0 {
      assert ("@" + name)[1] == name[0];
    }
  }

  /**
   * A reader finds exactly the listed attributes after the name: the children never start with
   * something it would take for another pair (attribute names do not begin with '@').
   */
  lemma AttributesRecoverable(e: ElementNode)
    requires Packed(e).Ok?
    requires forall a :: a in e.attrs ==> !("@" <= a.name)
    ensures AttrPairsAt(Packed(e).value, 1) == |ListedAttrs(e.attrs)|
  {
    var pairs := AttrItems(e.attrs);
    var listed := ListedAttrs(e.attrs);
    var children := ChildItems(e.children, false).value;
    assert Packed(e).value == [Str(Name(e))] + pairs + children;
    AttrItemsArePairs(e.attrs);
    ChildItemsShape(e.children, false);
    forall m | 0 <= m < |listed|
      ensures pairs[2 * m].Str? && IsAttrName(pairs[2 * m].text) && pairs[2 * m + 1].Str?
    {
      assert listed[m] in e.attrs;
      AtName(listed[m].name);
    }
    PairsBeforeChildren(Str(Name(e)), pairs, children, |listed|);
  }

  /** After the head, n name/value pairs and then items that hold no attribute name: n pairs are found. */
  lemma PairsBeforeChildren(head: Item, pairs: seq<Item>, children: seq<Item>, n: nat)
    requires |pairs| == 2 * n
    requires forall m :: 0 <= m < n ==> pairs[2 * m].Str? && IsAttrName(pairs[2 * m].text) && pairs[2 * m + 1].Str?
    requires NoAttrNames(children)
    ensures AttrPairsAt([head] + pairs + children, 1) == n
  {
    var items := [head] + pairs + children;
    forall m | 0 <= m < n
      ensures items[1 + 2 * m].Str? && IsAttrName(items[1 + 2 * m].text) && items[1 + 2 * m + 1].Str?
    {
      assert items[1 + 2 * m] == pairs[2 * m];
      assert items[1 + 2 * m + 1] == pairs[2 * m + 1];
    }
    if 1 + 2 * n < |items| {
      assert items[1 + 2 * n] == children[0];
    }
    CountPairs(items, 1, n);
  }

  // The examples of the unit tests, and a consequence of the two spellings of "id"
  //
  // Each example is a general lemma over its strings and a lemma evaluating the literals, kept
  // apart because the solver unfolds functions of literals eagerly.

  /** The escaper of the tests' expectations: text that needs no escaping. */
  function Plain(t: string): string
  {
    t
  }

  /** An element without children packs to its name and its attribute pairs. */
  lemma PackedLeaf(e: ElementNode)
    requires e.children == []
    ensures Packed(e) == Ok([Str(Name(e))] + AttrItems(e.attrs))
  {
    assert [Str(Name(e))] + AttrItems(e.attrs) + [] == [Str(Name(e))] + AttrItems(e.attrs);
  }

  /** A childless element without attributes: its tag alone. */
  lemma PackTag(tag: string)
    ensures PackOf(Plain, Some(Element(tag, [], []))) == Ok("[" + Quote(Plain, tag) + "]")
  {
    var e := Element(tag, [], []);
    PackedLeaf(e);
    assert [Str(tag)] + [] == [Str(tag)];
    assert Packed(e) == Ok([Str(tag)]);
    assert Joined(Plain, [Str(tag)]) == Quote(Plain, tag);
  }

  /** A childless element with only an id: the tag, '#' and the id, and no attribute pair. */
  lemma PackId(tag: string, id: string)
    ensures PackOf(Plain, Some(Element(tag, [Attr(IdAttribute, None, id)], []))) == Ok("[" + Quote(Plain, tag + "#" + id) + "]")
  {
    var e := Element(tag, [Attr(IdAttribute, None, id)], []);
    assert AttributeNode(e.attrs, IdAttribute) == Some(e.attrs[0]);
    assert AttributeNode(e.attrs[1..], CssClassAttribute) == None;
    assert !Listed(e.attrs[0]) by {
      assert EqualsIgnoreCase(IdAttribute, IdAttribute);
    }
    assert AttrItems(e.attrs) == [] by {
      assert e.attrs[..0] == [];
    }
    PackedLeaf(e);
    assert [Str(tag + "#" + id)] + [] == [Str(tag + "#" + id)];
    assert Packed(e) == Ok([Str(tag + "#" + id)]);
    assert Joined(Plain, [Str(tag + "#" + id)]) == Quote(Plain, tag + "#" + id);
  }

  /** A childless element with an id and a class attribute is named by both. */
  lemma PackIdClass(tag: string, id: string, cls: string)
    ensures PackOf(Plain, Some(Element(tag, [Attr(IdAttribute, None, id), Attr(CssClassAttribute, None, cls)], [])))
      == Ok("[" + Quote(Plain, Dotted(tag + "#" + id, ClassNames(cls))) + "]")
  {
    var e := Element(tag, [Attr(IdAttribute, None, id), Attr(CssClassAttribute, None, cls)], []);
    assert AttributeNode(e.attrs, IdAttribute) == Some(e.attrs[0]);
    assert AttributeNode(e.attrs[1..], CssClassAttribute) == Some(e.attrs[1]);
    assert !Listed(e.attrs[0]) by {
      assert EqualsIgnoreCase(IdAttribute, IdAttribute);
    }
    assert !Listed(e.attrs[1]) by {
      assert EqualsIgnoreCase(CssClassAttribute, CssClassAttribute);
    }
    assert AttrItems(e.attrs[..1]) == [] by {
      assert e.attrs[..1][..0] == [];
    }
    assert AttrItems(e.attrs) == [];
    PackedLeaf(e);
    assert [Str(Name(e))] + [] == [Str(Name(e))];
    assert Name(e) == Dotted(tag + "#" + id, ClassNames(cls));
    assert Packed(e) == Ok([Str(Name(e))]);
    assert Joined(Plain, [Str(Name(e))]) == Quote(Plain, Name(e));
  }

  /** A childless element with one ordinary attribute: the tag, then '@' + name and the value. */
  lemma PackAttribute(tag: string, name: string, value: string)
    requires !EqualsIgnoreCase(name, IdAttribute) && !EqualsIgnoreCase(name, CssClassAttribute)
    ensures PackOf(Plain, Some(Element(tag, [Attr(name, None, value)], [])))
      == Ok("[" + (Quote(Plain, tag) + "," + Quote(Plain, "@" + name) + "," + Quote(Plain, value)) + "]")
  {
    var e := Element(tag, [Attr(name, None, value)], []);
    assert name != IdAttribute && name != CssClassAttribute;
    assert AttributeNode(e.attrs, IdAttribute) == None;
    assert AttributeNode(e.attrs, CssClassAttribute) == None;
    assert e.attrs[..0] == [];
    assert AttrItems(e.attrs) == [Str("@" + name), Str(value)];
    PackedLeaf(e);
    var items := [Str(tag), Str("@" + name), Str(value)];
    assert [Str(tag)] + [Str("@" + name), Str(value)] + [] == items;
    assert Packed(e) == Ok(items);
    JoinedTwo(Str(tag), Str("@" + name));
    JoinedSnoc(Plain, [Str(tag), Str("@" + name)], Str(value));
    assert [Str(tag), Str("@" + name)] + [Str(value)] == items;
  }

  /** An element holding one element that holds text: a nested array after the tag. */
  lemma PackNested(outer: string, inner: string, text: string)
    requires !IsWhitespace(text) && !(|text| > 0 && text[0] == '@')
    ensures PackOf(Plain, Some(Element(outer, [], [Element(inner, [], [Text(text)])])))
      == Ok("[" + (Quote(Plain, outer) + "," + ("[" + (Quote(Plain, inner) + "," + Quote(Plain, text)) + "]")) + "]")
  {
    var td := Element(inner, [], [Text(text)]);
    assert ChildItems(td.children, false) == Ok([Str(text)]) by {
      TextChild(td.children, false);
      assert td.children[1..] == [];
      assert [Str(text)] + [] == [Str(text)];
    }
    assert Name(td) == inner;
    assert [Str(inner)] + AttrItems(td.attrs) + [Str(text)] == [Str(inner), Str(text)];
    assert Packed(td) == Ok([Str(inner), Str(text)]);
    var tr := Element(outer, [], [td]);
    var a := [Str(inner), Str(text)];
    assert ChildItems(tr.children, false) == Ok([Arr(a)]) by {
      ElementChild(tr.children, false);
      assert tr.children[1..] == [];
      assert [] + [Arr(a)] + [] == [Arr(a)];
    }
    assert Name(tr) == outer;
    var items := [Str(outer), Arr(a)];
    assert [Str(outer)] + AttrItems(tr.attrs) + [Arr(a)] == items;
    assert Packed(tr) == Ok(items);
    JoinedTwo(Str(inner), Str(text));
    JoinedTwo(Str(outer), Arr(a));
  }

  lemma JoinedTwo(a: Item, b: Item)
    ensures Joined(Plain, [a, b]) == Render(Plain, a) + "," + Render(Plain, b)
  {
    assert [a, b][..1] == [a];
  }

  lemma TagLiteral()
    ensures "[" + Quote(Plain, "p") + "]" == "['p']"
  {
  }

  lemma IdLiteral()
    ensures "[" + Quote(Plain, "p" + "#" + "myid") + "]" == "['p#myid']"
  {
  }

  lemma OneClassLiteral()
    ensures "[" + Quote(Plain, "p#myid.class1") + "]" == "['p#myid.class1']"
  {
  }

  lemma IdPrefix()
    ensures "p" + "#" + "myid" == "p#myid"
  {
  }

  lemma NoSpaceEnd()
    ensures RunEnd("class1", 0, false) == 6
  {
  }

  lemma WordNames()
    ensures ClassNames("class1") == ["class1"]
  {
    NoSpaceEnd();
    assert ClassSplit("class1") == ["class1"];
    assert ["class1"][..0] == [];
  }

  lemma LeadingEnds()
    ensures RunEnd(" class1", 0, false) == 0 && RunEnd(" class1", 0, true) == 1 && RunEnd(" class1", 1, false) == 7
  {
  }

  lemma LeadingRuns()
    ensures ClassSplit(" class1") == ["", "class1"]
  {
    LeadingEnds();
    assert " class1"[1..] == "class1";
    assert Runs(" class1", 0) == ["", "class1"];
  }

  lemma LeadingNames()
    ensures ClassNames(" class1") == ["class1"]
  {
    LeadingRuns();
    assert ["", "class1"][..1] == [""];
    assert [""][..0] == [];
  }

  lemma TrailingEnds()
    ensures RunEnd("class1 ", 0, false) == 6 && RunEnd("class1 ", 6, true) == 7
  {
  }

  lemma TrailingRuns()
    ensures ClassSplit("class1 ") == ["class1"]
  {
    TrailingEnds();
    assert "class1 "[..6] == "class1";
    assert Runs("class1 ", 0) == ["class1", ""];
    assert ["class1", ""][..1] == ["class1"];
    assert DropTrailingEmpty(["class1", ""]) == ["class1"];
  }

  lemma TrailingNames()
    ensures ClassNames("class1 ") == ["class1"]
  {
    TrailingRuns();
    assert ["class1"][..0] == [];
  }

  lemma PairEnds()
    ensures RunEnd("class1 class2", 0, false) == 6 && RunEnd("class1 class2", 6, true) == 7
    ensures RunEnd("class1 class2", 7, false) == 13
  {
  }

  lemma PairRuns()
    ensures ClassSplit("class1 class2") == ["class1", "class2"]
  {
    var v := "class1 class2";
    PairEnds();
    assert v[..6] == "class1" && v[7..] == "class2";
    assert Runs(v, 7) == ["class2"];
    assert Runs(v, 0) == ["class1", "class2"];
  }

  /** Two non-empty pieces are both kept. */
  lemma NonEmptyKeepsPair(a: string, b: string)
    requires a != "" && b != ""
    ensures NonEmpty([a, b]) == [a, b]
  {
    assert [a][..0] == [];
    assert NonEmpty([a]) == [a];
    assert [a, b][..1] == [a];
  }

  lemma PairNames()
    ensures ClassNames("class1 class2") == ["class1", "class2"]
  {
    PairRuns();
    NonEmptyKeepsPair("class1", "class2");
  }

  lemma DottedOne()
    ensures Dotted("p#myid", ["class1"]) == "p#myid.class1"
  {
    assert ["class1"][..0] == [];
  }

  lemma DottedTwo()
    ensures Dotted("p#myid", ["class1", "class2"]) == "p#myid.class1.class2"
  {
    assert ["class1", "class2"][..1] == ["class1"];
    DottedOne();
  }

  lemma TwoClassLiteral()
    ensures "[" + Quote(Plain, "p#myid.class1.class2") + "]" == "['p#myid.class1.class2']"
  {
  }

  lemma AttributeLiteral()
    ensures "[" + (Quote(Plain, "div") + "," + Quote(Plain, "@" + "someattr") + "," + Quote(Plain, "somevalue")) + "]"
      == "['div','@someattr','somevalue']"
  {
  }

  lemma TypeLiteral()
    ensures "[" + (Quote(Plain, "input") + "," + Quote(Plain, "@" + "type") + "," + Quote(Plain, "submit")) + "]"
      == "['input','@type','submit']"
  {
  }

  lemma NestedLiteral()
    ensures "[" + (Quote(Plain, "tr") + "," + ("[" + (Quote(Plain, "td") + "," + Quote(Plain, "col1")) + "]")) + "]"
      == "['tr',['td','col1']]"
  {
  }

  lemma OrdinaryNames()
    ensures !EqualsIgnoreCase("someattr", IdAttribute) && !EqualsIgnoreCase("someattr", CssClassAttribute)
    ensures !EqualsIgnoreCase("type", IdAttribute) && !EqualsIgnoreCase("type", CssClassAttribute)
  {
  }

  lemma PlainText()
    ensures !IsWhitespace("col1") && !(|"col1"| > 0 && "col1"[0] == '@')
  {
  }

  /** <p>: the tag alone. */
  lemma PackTagExample()
    ensures PackOf(Plain, Some(Element("p", [], []))) == Ok("['p']")
  {
    PackTag("p");
    TagLiteral();
  }

  /** <p id='myid'>: the id after '#', and no attribute pair for it. */
  lemma PackIdExample()
    ensures PackOf(Plain, Some(Element("p", [Attr("id", None, "myid")], []))) == Ok("['p#myid']")
  {
    PackId("p", "myid");
    IdLiteral();
  }

  /** <p id='myid' class='class1'>. */
  lemma PackClassExample()
    ensures PackOf(Plain, Some(Element("p", [Attr("id", None, "myid"), Attr("class", None, "class1")], []))) == Ok("['p#myid.class1']")
  {
    PackIdClass("p", "myid", "class1");
    IdPrefix();
    WordNames();
    DottedOne();
    OneClassLiteral();
  }

  /** <p id='myid' class=' class1'>: the empty leading piece gives no empty class. */
  lemma PackLeadingSpaceExample()
    ensures PackOf(Plain, Some(Element("p", [Attr("id", None, "myid"), Attr("class", None, " class1")], []))) == Ok("['p#myid.class1']")
  {
    PackIdClass("p", "myid", " class1");
    IdPrefix();
    LeadingNames();
    DottedOne();
    OneClassLiteral();
  }

  /** <p id='myid' class='class1 '>: the trailing white space gives no empty class. */
  lemma PackTrailingSpaceExample()
    ensures PackOf(Plain, Some(Element("p", [Attr("id", None, "myid"), Attr("class", None, "class1 ")], []))) == Ok("['p#myid.class1']")
  {
    PackIdClass("p", "myid", "class1 ");
    IdPrefix();
    TrailingNames();
    DottedOne();
    OneClassLiteral();
  }

  /** <p id='myid' class='class1 class2'>: each class after a '.', in order. */
  lemma PackTwoClassesExample()
    ensures PackOf(Plain, Some(Element("p", [Attr("id", None, "myid"), Attr("class", None, "class1 class2")], []))) == Ok("['p#myid.class1.class2']")
  {
    PackIdClass("p", "myid", "class1 class2");
    IdPrefix();
    PairNames();
    DottedTwo();
    TwoClassLiteral();
  }

  /** <div someattr='somevalue'>. */
  lemma PackAttributeExample()
    ensures PackOf(Plain, Some(Element("div", [Attr("someattr", None, "somevalue")], []))) == Ok("['div','@someattr','somevalue']")
  {
    OrdinaryNames();
    PackAttribute("div", "someattr", "somevalue");
    AttributeLiteral();
  }

  /** <input type='submit'>. */
  lemma PackTypeExample()
    ensures PackOf(Plain, Some(Element("input", [Attr("type", None, "submit")], []))) == Ok("['input','@type','submit']")
  {
    OrdinaryNames();
    PackAttribute("input", "type", "submit");
    TypeLiteral();
  }

  /** <tr><td>col1</td></tr>. */
  lemma PackNestedExample()
    ensures PackOf(Plain, Some(Element("tr", [], [Element("td", [], [Text("col1")])]))) == Ok("['tr',['td','col1']]")
  {
    PlainText();
    PackNested("tr", "td", "col1");
    NestedLiteral();
  }

  /** An attribute spelled "ID" is left out of the attribute list and not taken as the id. */
  lemma UpperCaseId(tag: string, value: string)
    ensures Packed(Element(tag, [Attr("ID", None, value)], [])) == Ok([Str(tag)])
  {
    var e := Element(tag, [Attr("ID", None, value)], []);
    assert e.attrs[0].name != IdAttribute && e.attrs[0].name != CssClassAttribute;
    assert AttributeNode(e.attrs, IdAttribute) == None;
    assert AttributeNode(e.attrs, CssClassAttribute) == None;
    assert !Listed(e.attrs[0]) by {
      UpperId();
    }
    assert e.attrs[..0] == [];
    assert AttrItems(e.attrs) == [];
    PackedLeaf(e);
    assert [Str(tag)] + [] == [Str(tag)];
  }

  lemma UpperId()
    ensures EqualsIgnoreCase("ID", IdAttribute)
  {
  }
}
