/**
 * The HTML packer: a DOM element becomes a nested JavaScript array literal whose first item
 * is tagname(#id)?(.classname)*, followed by '@name','value' attribute pairs and then the
 * children (strings for text, nested arrays for elements, 0 for a run of white space).
 * The ECMAScript string escaper is a parameter.
 */
module HtmlPacker {
  import opened Wrappers
  import opened JavaString

  datatype Attr = Attr(name: string, namespaceUri: Option<string>, value: string)

  /** The DOM nodes of a cleaned document; a node of any other type carries its type number. */
  datatype Node =
    | Element(tag: string, attrs: seq<Attr>, children: seq<Node>)
    | Text(data: string)
    | CData(data: string)
    | Comment(data: string)
    | Instruction(data: string)
    | Other(nodeType: int)

  type ElementNode = n: Node | n.Element? witness Element("", [], [])

  const IdAttribute := "id"
  const CssClassAttribute := "class"

  /** Element.getAttributeNode: the attribute with exactly that name, if any. */
  function AttributeNode(attrs: seq<Attr>, name: string): Option<Attr>
  {
    if attrs == [] then None
    else if attrs[0].name == name then Some(attrs[0])
    else AttributeNode(attrs[1..], name)
  }

  lemma {:induction false} AttributeNodeFinds(attrs: seq<Attr>, name: string)
    ensures var r := AttributeNode(attrs, name);
            (r.Some? ==> r.value in attrs && r.value.name == name)
            && (r.None? <==> forall a :: a in attrs ==> a.name != name)
  {
    if attrs != [] && attrs[0].name != name {
      AttributeNodeFinds(attrs[1..], name);
      assert attrs == [attrs[0]] + attrs[1..];
    }
  }

  // The class attribute, split like CLASSSPLIT.split (the regular expression \s+, limit 0)

  /** The end of the run of s[i..] whose characters are all white space (space) or all not. */
  function RunEnd(s: string, i: nat, space: bool): (j: nat)
    requires i <= |s|
    ensures i <= j <= |s|
    ensures forall k :: i <= k < j ==> IsSpace(s[k]) == space
    ensures j < |s| ==> IsSpace(s[j]) != space
    decreases |s| - i
  {
    if i == |s| || IsSpace(s[i]) != space then i else RunEnd(s, i + 1, space)
  }

  /** The pieces of s[i..] between maximal runs of white space; the first and last may be empty. */
  function Runs(s: string, i: nat): (r: seq<string>)
    requires i <= |s|
    ensures |r| >= 1
    ensures forall k :: 0 <= k < |r| ==> forall c :: c in r[k] ==> !IsSpace(c)
    decreases |s| - i
  {
    var j := RunEnd(s, i, false);
    if j == |s| then [s[i..]]
    else [s[i..j]] + Runs(s, RunEnd(s, j, true))
  }

  /**
   * String.split("\\s+"): the input itself when no white space occurs in it (the first run
   * without white space reaches the end), else the pieces without trailing empty ones.
   */
  function ClassSplit(v: string): seq<string>
  {
    if RunEnd(v, 0, false) == |v| then [v] else DropTrailingEmpty(Runs(v, 0))
  }

  lemma ClassSplitSpaceFree(v: string)
    ensures forall k :: 0 <= k < |ClassSplit(v)| ==> forall c :: c in ClassSplit(v)[k] ==> !IsSpace(c)
  {
  }

  /** The non-empty strings of ps, in order. */
  function NonEmpty(ps: seq<string>): seq<string>
  {
    if ps == [] then []
    else NonEmpty(ps[..|ps| - 1]) + (if ps[|ps| - 1] == "" then [] else [ps[|ps| - 1]])
  }

  /** NonEmpty keeps exactly the non-empty strings. */
  lemma {:induction false} NonEmptyMembers(ps: seq<string>)
    ensures forall k :: 0 <= k < |NonEmpty(ps)| ==> NonEmpty(ps)[k] != "" && NonEmpty(ps)[k] in ps
    ensures forall p :: p in ps && p != "" ==> p in NonEmpty(ps)
  {
    if ps != [] {
      var init := ps[..|ps| - 1];
      NonEmptyMembers(init);
      assert ps == init + [ps[|ps| - 1]];
    }
  }

  /** The class names the element name lists: non-empty and free of white space. */
  function ClassNames(v: string): (r: seq<string>)
    ensures forall k :: 0 <= k < |r| ==> r[k] != "" && forall c :: c in r[k] ==> !IsSpace(c)
  {
    NonEmptyMembers(ClassSplit(v));
    ClassSplitSpaceFree(v);
    NonEmpty(ClassSplit(v))
  }

  /** prefix, then "." before each name. */
  function Dotted(prefix: string, ws: seq<string>): (r: string)
    ensures prefix <= r
    ensures |r| == |prefix| <==> ws == []
  {
    if ws == [] then prefix else Dotted(prefix, ws[..|ws| - 1]) + "." + ws[|ws| - 1]
  }

  /** The encoded name of e: tag, then "#" and the id, then "." and each class name. */
  function Name(e: ElementNode): (r: string)
    ensures e.tag <= r
  {
    var named := match AttributeNode(e.attrs, IdAttribute)
      case Some(a) => e.tag + "#" + a.value
      case None => e.tag;
    match AttributeNode(e.attrs, CssClassAttribute)
    case Some(a) => Dotted(named, ClassNames(a.value))
    case None => named
  }

  // The packed form

  /** An item of a packed array: a string literal, the number 0, or a nested array. */
  datatype Item = Str(text: string) | Zero | Arr(items: seq<Item>)

  /** stringLiteral: the escaped text between single quotes. */
  function Quote(esc: string -> string, t: string): string
  {
    "'" + esc(t) + "'"
  }

  function Render(esc: string -> string, it: Item): (r: string)
    ensures |r| >= 1
    ensures r[0] == '[' <==> it.Arr?
    ensures r[0] == '\'' <==> it.Str?
    ensures it.Arr? ==> r[|r| - 1] == ']'
    decreases it
  {
    match it
    case Str(t) => Quote(esc, t)
    case Zero => "0"
    case Arr(items) => "[" + Joined(esc, items) + "]"
  }

  /** The items rendered and separated by commas. */
  function Joined(esc: string -> string, items: seq<Item>): string
    decreases items
  {
    if |items| == 0 then ""
    else if |items| == 1 then Render(esc, items[0])
    else Joined(esc, items[..|items| - 1]) + "," + Render(esc, items[|items| - 1])
  }

  /** The attributes packElement writes out: not namespaced, and neither id nor class in any case. */
  predicate Listed(a: Attr)
  {
    a.namespaceUri.None? && !EqualsIgnoreCase(a.name, IdAttribute) && !EqualsIgnoreCase(a.name, CssClassAttribute)
  }

  function ListedAttrs(attrs: seq<Attr>): (r: seq<Attr>)
    ensures forall a :: a in r <==> a in attrs && Listed(a)
  {
    if attrs == [] then []
    else ListedAttrs(attrs[..|attrs| - 1]) + (if Listed(attrs[|attrs| - 1]) then [attrs[|attrs| - 1]] else [])
  }

  /** The '@name','value' pairs of the attributes, in order. */
  function AttrItems(attrs: seq<Attr>): seq<Item>
  {
    if attrs == [] then []
    else
      var a := attrs[|attrs| - 1];
      AttrItems(attrs[..|attrs| - 1]) + (if Listed(a) then [Str("@" + a.name), Str(a.value)] else [])
  }

  /** isWhitespace: one or more white space characters and nothing else. */
  predicate IsWhitespace(t: string)
  {
    |t| > 0 && forall k :: 0 <= k < |t| ==> IsSpace(t[k])
  }

  /** Undoes the escaping of a text child: "@@" at the front stands for "@". */
  function Unescape(t: string): string
  {
    if "@@" <= t then t[1..] else t
  }

  /** Whether t is the name of an attribute pair: it begins with exactly one '@'. */
  predicate IsAttrName(t: string)
  {
    "@" <= t && !("@@" <= t)
  }

  /** The string a text child is written as, after a pending space or not. */
  function TextItem(d: string, pending: bool): (r: string)
    ensures !IsAttrName(r)
    ensures Unescape(r) == if pending then " " + d else d
  {
    if pending then
      assert (" " + d)[0] == ' ';
      " " + d
    else if |d| > 0 && d[0] == '@' then
      assert ("@" + d)[1] == d[0] && ("@" + d)[1..] == d;
      "@" + d
    else
      d
  }

  /** The 0 a pending run of white space becomes. */
  function Space(pending: bool): seq<Item>
  {
    if pending then [Zero] else []
  }

  function Then(done: seq<Item>, r: Result<seq<Item>>): Result<seq<Item>>
  {
    match r
    case Ok(rest) => Ok(done + rest)
    case Err(x) => Err(x)
  }

  /** What packElement writes for e: the encoded name, the attribute pairs, then the children. */
  function Packed(e: ElementNode): (r: Result<seq<Item>>)
    ensures r.Ok? ==> |r.value| >= 1 && r.value[0] == Str(Name(e))
    ensures r.Err? ==> r.error == IllegalState
    decreases e
  {
    Then([Str(Name(e))] + AttrItems(e.attrs), ChildItems(e.children, false))
  }

  /** The items for the children cs, with a run of white space pending or not. */
  function ChildItems(cs: seq<Node>, pending: bool): (r: Result<seq<Item>>)
    ensures r.Err? ==> r.error == IllegalState
    decreases cs
  {
    if cs == [] then Ok(Space(pending))
    else
      var c := cs[0];
      if c.Element? then
        match Packed(c)
        case Err(x) => Err(x)
        case Ok(a) => Then(Space(pending) + [Arr(a)], ChildItems(cs[1..], false))
      else if c.Text? || c.CData? then
        if IsWhitespace(c.data) then ChildItems(cs[1..], true)
        else Then([Str(TextItem(c.data, pending))], ChildItems(cs[1..], false))
      else if c.Comment? || c.Instruction? then ChildItems(cs[1..], pending)
      else Err(IllegalState)
  }

  /** The first element among cs, as selectFirstChild finds it. */
  function FirstElement(cs: seq<Node>): (r: Option<ElementNode>)
    ensures r.Some? ==> r.value in cs
    ensures r.None? <==> forall c :: c in cs ==> !c.Element?
  {
    if cs == [] then None
    else if cs[0].Element? then Some(cs[0])
    else FirstElement(cs[1..])
  }

  /** pack: "[]" without a root, else the rendered array or the exception. */
  function PackOf(esc: string -> string, root: Option<ElementNode>): (r: Result<string>)
    ensures r.Err? <==> root.Some? && Packed(root.value).Err?
    ensures r.Ok? ==> |r.value| >= 2 && r.value[0] == '[' && r.value[|r.value| - 1] == ']'
  {
    match root
    case None => Ok("[]")
    case Some(e) =>
      match Packed(e)
      case Ok(items) => Ok(Render(esc, Arr(items)))
      case Err(x) => Err(x)
  }

  /** The name is the bare tag exactly when there is no id and no class name. */
  lemma NameIsBareTag(e: ElementNode)
    ensures Name(e) == e.tag <==>
      AttributeNode(e.attrs, IdAttribute).None? &&
      (AttributeNode(e.attrs, CssClassAttribute).None? ||
       ClassNames(AttributeNode(e.attrs, CssClassAttribute).value.value) == [])
  {
  }

  lemma JoinedSnoc(esc: string -> string, items: seq<Item>, x: Item)
    requires |items| >= 1
    ensures Joined(esc, items + [x]) == Joined(esc, items) + "," + Render(esc, x)
  {
    assert (items + [x])[..|items|] == items;
  }

  lemma DottedSnoc(prefix: string, ws: seq<string>, w: string)
    ensures Dotted(prefix, ws + [w]) == Dotted(prefix, ws) + "." + w
  {
    assert (ws + [w])[..|ws|] == ws;
  }

  lemma NonEmptyStep(ps: seq<string>, i: int)
    requires 0 <= i < |ps|
    ensures NonEmpty(ps[..i + 1]) == NonEmpty(ps[..i]) + (if ps[i] == "" then [] else [ps[i]])
  {
    assert ps[..i + 1][..i] == ps[..i];
  }

  lemma AttrItemsStep(attrs: seq<Attr>, i: int)
    requires 0 <= i < |attrs|
    ensures AttrItems(attrs[..i + 1]) == AttrItems(attrs[..i])
      + (if Listed(attrs[i]) then [Str("@" + attrs[i].name), Str(attrs[i].value)] else [])
  {
    assert attrs[..i + 1][..i] == attrs[..i];
  }

  // One child at a time

  lemma ElementChild(cs: seq<Node>, pending: bool)
    requires cs != [] && cs[0].Element?
    ensures Packed(cs[0]).Err? ==> ChildItems(cs, pending).Err?
    ensures Packed(cs[0]).Ok? ==>
      ChildItems(cs, pending) == Then(Space(pending) + [Arr(Packed(cs[0]).value)], ChildItems(cs[1..], false))
  {
  }

  lemma TextChild(cs: seq<Node>, pending: bool)
    requires cs != [] && (cs[0].Text? || cs[0].CData?)
    ensures IsWhitespace(cs[0].data) ==> ChildItems(cs, pending) == ChildItems(cs[1..], true)
    ensures !IsWhitespace(cs[0].data) ==>
      ChildItems(cs, pending) == Then([Str(TextItem(cs[0].data, pending))], ChildItems(cs[1..], false))
  {
  }

  lemma IgnoredChild(cs: seq<Node>, pending: bool)
    requires cs != [] && (cs[0].Comment? || cs[0].Instruction?)
    ensures ChildItems(cs, pending) == ChildItems(cs[1..], pending)
  {
  }

  lemma UnexpectedChild(cs: seq<Node>, pending: bool)
    requires cs != [] && cs[0].Other?
    ensures ChildItems(cs, pending) == Err(IllegalState)
  {
  }

  lemma Assoc(a: string, b: string, c: string, d: string)
    ensures a + b + c + d == a + (b + c + d)
  {
  }

  // One written item at a time: what the builder holds after appending it

  lemma AppendStr(esc: string -> string, prefix: string, items: seq<Item>, t: string)
    requires |items| >= 1
    ensures prefix + Joined(esc, items) + "," + Quote(esc, t) == prefix + Joined(esc, items + [Str(t)])
  {
    JoinedSnoc(esc, items, Str(t));
    Assoc(prefix, Joined(esc, items), ",", Quote(esc, t));
  }

  lemma AppendZero(esc: string -> string, prefix: string, items: seq<Item>)
    requires |items| >= 1
    ensures prefix + Joined(esc, items) + ",0" == prefix + Joined(esc, items + [Zero])
  {
    JoinedSnoc(esc, items, Zero);
    Assoc(prefix, Joined(esc, items), ",", "0");
    assert "," + "0" == ",0";
  }

  lemma AppendArr(esc: string -> string, prefix: string, items: seq<Item>, a: seq<Item>)
    requires |items| >= 1
    ensures prefix + Joined(esc, items) + "," + Render(esc, Arr(a)) == prefix + Joined(esc, items + [Arr(a)])
  {
    JoinedSnoc(esc, items, Arr(a));
    Assoc(prefix, Joined(esc, items), ",", Render(esc, Arr(a)));
  }

  lemma ThenThen(done: seq<Item>, more: seq<Item>, r: Result<seq<Item>>)
    ensures Then(done, Then(more, r)) == Then(done + more, r)
  {
    if r.Ok? {
      assert done + (more + r.value) == done + more + r.value;
    }
  }

  /** A java.lang.StringBuilder that is only appended to. */
  class Builder {
    var text: string

    constructor()
      ensures text == ""
    {
      text := "";
    }

    method Append(t: string)
      modifies this
      ensures text == old(text) + t
    {
      text := text + t;
    }
  }

  class HtmlPacker {
    var root: Option<ElementNode>

    constructor(rootElement: Option<ElementNode>)
      ensures root == rootElement
    {
      root := rootElement;
    }

    method CopyWith(newRoot: Option<ElementNode>) returns (r: HtmlPacker)
      ensures fresh(r) && r.root == newRoot
    {
      r := new HtmlPacker(newRoot);
    }

    /** A packer on the first element child of the root, on no root if there is none. */
    method SelectFirstChild() returns (r: HtmlPacker)
      ensures root.None? ==> r == this
      ensures root.Some? ==> fresh(r) && r.root == FirstElement(root.value.children)
    {
      if root.None? {
        return this;
      }
      var cs := root.value.children;
      var i := 0;
      while i < |cs|
        invariant 0 <= i <= |cs|
        invariant FirstElement(cs[i..]) == FirstElement(cs)
      {
        if cs[i].Element? {
          assert cs[i..][0] == cs[i];
          r := CopyWith(Some(cs[i]));
          return;
        }
        assert cs[i..][1..] == cs[i + 1..];
        i := i + 1;
      }
      r := CopyWith(None);
    }

    method Pack(esc: string -> string) returns (r: Result<string>)
      ensures r == PackOf(esc, root)
    {
      if root.None? {
        return Ok("[]");
      }
      var out := new Builder();
      var e := root.value;
      var packed, items := PackElement(esc, e, out);
      if packed.Err? {
        return Err(packed.error);
      }
      assert out.text == Render(esc, Arr(items));
      r := Ok(out.text);
    }

    method ElementName(e: ElementNode) returns (name: string)
      ensures name == Name(e)
    {
      name := e.tag;
      var id := AttributeNode(e.attrs, IdAttribute);
      if id.Some? {
        name := name + "#" + id.value.value;
      }
      var cls := AttributeNode(e.attrs, CssClassAttribute);
      if cls.Some? {
        var classNames := ClassSplit(cls.value.value);
        name := AppendClasses(name, classNames);
      }
    }

    /** The loop over the split class attribute: "." and each non-empty piece. */
    method AppendClasses(prefix: string, classNames: seq<string>) returns (name: string)
      ensures name == Dotted(prefix, NonEmpty(classNames))
    {
      name := prefix;
      var i := 0;
      while i < |classNames|
        invariant 0 <= i <= |classNames|
        invariant name == Dotted(prefix, NonEmpty(classNames[..i]))
      {
        NonEmptyStep(classNames, i);
        if classNames[i] != "" {
          DottedSnoc(prefix, NonEmpty(classNames[..i]), classNames[i]);
          name := name + "." + classNames[i];
        } else {
          assert NonEmpty(classNames[..i + 1]) == NonEmpty(classNames[..i]);
        }
        i := i + 1;
      }
      assert classNames[..i] == classNames;
    }

    /** Appends the array for e to out, or throws IllegalStateException on an unexpected node. */
    method PackElement(esc: string -> string, e: ElementNode, out: Builder) returns (r: Result<()>, ghost packed: seq<Item>)
      modifies out
      ensures r.Ok? <==> Packed(e).Ok?
      ensures r.Ok? ==> Packed(e) == Ok(packed) && out.text == old(out.text) + Render(esc, Arr(packed))
      ensures r.Err? ==> r.error == IllegalState
      decreases e, 3
    {
      ghost var prefix := out.text + "[";
      out.Append("[");
      var name := ElementName(e);
      out.Append(Quote(esc, name));
      PackAttributes(esc, e.attrs, out, prefix, [Str(name)]);
      r := PackChildren(esc, e, out, prefix, [Str(name)] + AttrItems(e.attrs));
      packed := [];
      if r.Ok? {
        packed := Packed(e).value;
        out.Append("]");
      }
    }

    /** The loop over the attributes: ",'@name','value'" for each listed one. */
    method PackAttributes(esc: string -> string, attrs: seq<Attr>, out: Builder, ghost prefix: string, ghost done: seq<Item>)
      requires |done| >= 1 && out.text == prefix + Joined(esc, done)
      modifies out
      ensures out.text == prefix + Joined(esc, done + AttrItems(attrs))
    {
      ghost var items := done;
      var i := 0;
      while i < |attrs|
        invariant 0 <= i <= |attrs|
        invariant items == done + AttrItems(attrs[..i])
        invariant out.text == prefix + Joined(esc, items)
      {
        var a := attrs[i];
        AttrItemsStep(attrs, i);
        if a.namespaceUri.None? && !EqualsIgnoreCase(a.name, IdAttribute) && !EqualsIgnoreCase(a.name, CssClassAttribute) {
          out.Append(",");
          out.Append(Quote(esc, "@" + a.name));
          AppendStr(esc, prefix, items, "@" + a.name);
          items := items + [Str("@" + a.name)];
          out.Append(",");
          out.Append(Quote(esc, a.value));
          AppendStr(esc, prefix, items, a.value);
          items := items + [Str(a.value)];
        } else {
          assert items == done + AttrItems(attrs[..i + 1]);
        }
        i := i + 1;
      }
      assert attrs[..i] == attrs;
    }

    /** The ",0" for a pending run of white space, if there is one. */
    method PackSpace(esc: string -> string, trailingSpace: bool, out: Builder, ghost prefix: string, ghost items: seq<Item>)
      returns (ghost after: seq<Item>)
      requires |items| >= 1 && out.text == prefix + Joined(esc, items)
      modifies out
      ensures after == items + Space(trailingSpace)
      ensures out.text == prefix + Joined(esc, after)
    {
      if trailingSpace {
        out.Append(",0");
        AppendZero(esc, prefix, items);
        after := items + [Zero];
      } else {
        after := items;
        assert items + Space(false) == items;
      }
    }

    /** A text child that is not all white space: after the pending space, or with a leading '@' doubled. */
    method PackText(esc: string -> string, text: string, trailingSpace: bool, out: Builder, ghost prefix: string, ghost items: seq<Item>)
      returns (ghost after: seq<Item>)
      requires |items| >= 1 && out.text == prefix + Joined(esc, items)
      modifies out
      ensures after == items + [Str(TextItem(text, trailingSpace))]
      ensures out.text == prefix + Joined(esc, after)
    {
      var textValue := text;
      if trailingSpace {
        textValue := " " + textValue;
      } else if |textValue| > 0 && textValue[0] == '@' {
        textValue := "@" + textValue;
      }
      assert textValue == TextItem(text, trailingSpace);
      out.Append(",");
      out.Append(Quote(esc, textValue));
      AppendStr(esc, prefix, items, textValue);
      after := items + [Str(textValue)];
    }

    /** The loop over the children, with the pending white space flag, and the trailing 0. */
    method PackChildren(esc: string -> string, e: ElementNode, out: Builder, ghost prefix: string, ghost done: seq<Item>)
      returns (r: Result<()>)
      requires |done| >= 1 && out.text == prefix + Joined(esc, done)
      modifies out
      ensures r.Ok? <==> Then(done, ChildItems(e.children, false)).Ok?
      ensures r.Ok? ==> out.text == prefix + Joined(esc, Then(done, ChildItems(e.children, false)).value)
      ensures r.Err? ==> r.error == IllegalState
      decreases e, 2
    {
      ghost var items := done;
      ghost var goal := Then(done, ChildItems(e.children, false));
      var trailingSpace := false;
      var j := 0;
      assert e.children[0..] == e.children;
      while j < |e.children|
        invariant 0 <= j <= |e.children|
        invariant |items| >= 1
        invariant goal == Then(items, ChildItems(e.children[j..], trailingSpace))
        invariant out.text == prefix + Joined(esc, items)
      {
        var step;
        step, trailingSpace, items := PackChild(esc, e, j, trailingSpace, out, prefix, items);
        if step.Err? {
          return step;
        }
        j := j + 1;
      }
      assert e.children[j..] == [];
      assert goal == Ok(items + Space(trailingSpace));
      items := PackSpace(esc, trailingSpace, out, prefix, items);
      r := Ok(());
    }

    /** An element child c of e: the pending 0, if any, then "," and c packed. */
    method PackElementChild(esc: string -> string, e: ElementNode, c: ElementNode, trailingSpace: bool, out: Builder,
                            ghost prefix: string, ghost items: seq<Item>)
      returns (r: Result<()>, ghost after: seq<Item>)
      requires c in e.children && |items| >= 1 && out.text == prefix + Joined(esc, items)
      modifies out
      ensures r.Ok? <==> Packed(c).Ok?
      ensures r.Ok? ==> after == items + Space(trailingSpace) + [Arr(Packed(c).value)] && out.text == prefix + Joined(esc, after)
      ensures r.Err? ==> r.error == IllegalState
      decreases e, 0
    {
      var spaced := PackSpace(esc, trailingSpace, out, prefix, items);
      out.Append(",");
      var inner, a := PackElement(esc, c, out);
      after := spaced;
      r := inner;
      if inner.Ok? {
        AppendArr(esc, prefix, spaced, a);
        after := spaced + [Arr(a)];
      }
    }

    /** One pass of the child loop, on the child at j; an unexpected node type throws. */
    method PackChild(esc: string -> string, e: ElementNode, j: nat, trailingSpace: bool, out: Builder,
                     ghost prefix: string, ghost items: seq<Item>)
      returns (r: Result<()>, pending: bool, ghost after: seq<Item>)
      requires j < |e.children| && |items| >= 1 && out.text == prefix + Joined(esc, items)
      modifies out
      ensures r.Ok? ==> |after| >= 1 && out.text == prefix + Joined(esc, after)
      ensures r.Ok? ==> Then(items, ChildItems(e.children[j..], trailingSpace)) == Then(after, ChildItems(e.children[j + 1..], pending))
      ensures r.Err? ==> r.error == IllegalState && Then(items, ChildItems(e.children[j..], trailingSpace)).Err?
      decreases e, 1
    {
      var c := e.children[j];
      ghost var cs := e.children[j..];
      ghost var rest := e.children[j + 1..];
      assert cs[0] == c && cs[1..] == rest;
      r, pending, after := Ok(()), trailingSpace, items;
      if c.Element? {
        ElementChild(cs, trailingSpace);
        r, after := PackElementChild(esc, e, c, trailingSpace, out, prefix, items);
        if r.Ok? {
          ThenThen(items, Space(trailingSpace) + [Arr(Packed(c).value)], ChildItems(rest, false));
          assert after == items + (Space(trailingSpace) + [Arr(Packed(c).value)]);
        }
        pending := false;
      } else if c.Text? || c.CData? {
        TextChild(cs, trailingSpace);
        if IsWhitespace(c.data) {
          pending := true;
        } else {
          ThenThen(items, [Str(TextItem(c.data, trailingSpace))], ChildItems(rest, false));
          after := PackText(esc, c.data, trailingSpace, out, prefix, items);
          pending := false;
        }
      } else if c.Comment? || c.Instruction? {
        IgnoredChild(cs, trailingSpace);
      } else {
        UnexpectedChild(cs, trailingSpace);
        r := Err(IllegalState);
      }
    }
  }
}
