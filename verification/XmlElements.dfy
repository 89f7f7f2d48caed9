/** The mutable element tree: xml_indent rewrites text and tail in place, create_xml_tree appends. */
module XmlElements {
  import opened Text
  import opened Xml

  class Element {
    const tag: Tag
    var attributes: Attributes
    var text: Option<string>
    var tail: Option<string>
    var children: seq<Element>
    ghost var Repr: set<Element>

    /** The children below this element form a tree: no element is reachable twice. */
    ghost predicate Valid()
      reads this`children, this`Repr, Repr`children, Repr`Repr
      decreases Repr, 1
    {
      Apart()
    }

    /** One level of `Valid`: the subtrees of the children are valid, disjoint and without this element. */
    ghost predicate Apart()
      reads this`children, this`Repr, Repr`children, Repr`Repr
      decreases Repr, 0
    {
      && this in Repr
      && (forall i | 0 <= i < |children| ::
            children[i] in Repr && children[i] in children[i].Repr && children[i].Repr <= Repr
            && this !in children[i].Repr && children[i].Valid())
      && (forall i, j | 0 <= i < j < |children| :: children[i].Repr !! children[j].Repr)
    }

    lemma ValidIsApart()
      ensures Valid() <==> Apart()
    {
    }

    /** The tree as a value. */
    ghost function View(): Node
      requires Valid()
      reads this, Repr
      decreases Repr, |children| + 1
    {
      Node(tag, attributes, text, tail, Views(|children|))
    }

    /** The first `k` children as values; they do not depend on this element's own text and tail. */
    ghost function Views(k: nat): (r: seq<Node>)
      requires Apart() && k <= |children|
      reads this`children, this`Repr, Repr`children, Repr`Repr, Repr - {this}
      ensures |r| == k && forall i | 0 <= i < k :: r[i] == children[i].View()
      decreases Repr, k
    {
      if k == 0 then [] else Views(k - 1) + [children[k - 1].View()]
    }

    ghost function Kids(): (r: seq<Node>)
      requires Apart()
      reads this`children, this`Repr, Repr`children, Repr`Repr, Repr - {this}
      ensures |r| == |children| && forall i | 0 <= i < |children| :: r[i] == children[i].View()
    {
      Views(|children|)
    }

    lemma ViewOfKids()
      requires Valid()
      ensures Apart() && View() == Node(tag, attributes, text, tail, Kids())
    {
    }

    /** A fresh element without children. */
    constructor (tag: Tag)
      ensures Valid() && fresh(Repr) && View() == Node(tag, [], None, None, [])
    {
      this.tag := tag;
      attributes := [];
      text := None;
      tail := None;
      children := [];
      Repr := {this};
    }

    /** The loop over the children; this element's own text and tail are not touched. */
    method IndentChildren(level: nat)
      requires Apart()
      modifies Repr`text, Repr`tail
      ensures Apart() && text == old(text) && tail == old(tail)
      ensures Kids() == IndentAll(old(Kids()), level)
      decreases Repr, 0
    {
      hide Indent, IndentAll, Valid, View, Views, Kids;
      ghost var before := Kids();
      for k := 0 to |children|
        invariant Apart() && text == old(text) && tail == old(tail)
        invariant forall i | 0 <= i < k :: children[i].View() == Indent(before[i], level, DEFAULT_PAD)
        invariant forall i | k <= i < |children| :: children[i].View() == before[i]
      {
        children[k].XmlIndent(level, DEFAULT_PAD);
      }
    }

    /** The statement after the loop, where the loop variable still holds the last child. */
    method CloseLast(level: nat, pad: string)
      requires Apart() && children != []
      modifies Repr`text, Repr`tail
      ensures Apart() && text == old(text) && tail == old(tail)
      ensures Kids() == ReplaceLast(old(Kids()), CloseLevel(old(Kids())[|children| - 1], level, pad))
    {
      hide Line, IsBlankText, Valid, Views, Kids;
      ghost var before := Kids();
      var last := children[|children| - 1];
      last.ViewOfKids();
      if IsBlank(last.tail) {
        last.tail := Some(Line(level, pad));
      }
      last.ViewOfKids();
      assert forall i | 0 <= i < |children| - 1 :: children[i].View() == before[i];
    }

    /** The two statements before the loop. */
    method FillOwn(line: string, pad: string)
      requires Apart()
      modifies this`text, this`tail
      ensures text == Fill(old(text), line + pad) && tail == Fill(old(tail), line)
      ensures Apart() && Kids() == old(Kids())
    {
      hide Views, Kids, IsBlankText;
      if IsBlank(text) {
        text := Some(line + pad);
      }
      if IsBlank(tail) {
        tail := Some(line);
      }
    }

    method XmlIndent(level: nat, pad: string)
      requires Valid()
      modifies Repr`text, Repr`tail
      ensures Valid() && View() == Indent(old(View()), level, pad)
      decreases Repr, 1
    {
      hide IndentAll, Line, IsBlankText, Valid, View, Views, Kids, CloseLevel, ReplaceLast;
      var line := Line(level, pad);
      ViewOfKids();
      if children != [] {
        FillOwn(line, pad);
        IndentChildren(level + 1);
        CloseLast(level, pad);
      } else if level > 0 && IsBlank(tail) {
        tail := Some(line);
      }
      ValidIsApart();
      ViewOfKids();
    }

    /** One xml_element.set per attribute. */
    method SetAttributes(values: Attributes)
      requires attributes == []
      modifies this`attributes
      ensures attributes == values
    {
      for i := 0 to |values|
        invariant attributes == values[..i]
      {
        attributes := attributes + [values[i]];
      }
    }

    /** root.append(child) */
    method Append(child: Element)
      requires Apart() && child.Valid() && child.Repr !! Repr
      modifies this`children, this`Repr
      ensures Apart() && Repr == old(Repr) + child.Repr && text == old(text) && tail == old(tail)
      ensures child.Valid() && child.Repr == old(child.Repr)
      ensures Kids() == old(Kids()) + [old(child.View())]
    {
      hide Valid, View, Views, Kids;
      child.ValidIsApart();
      ghost var before := Kids();
      children := children + [child];
      Repr := Repr + child.Repr;
      assert forall i | 0 <= i < |before| :: children[i].View() == before[i];
    }
  }

  /** create_xml_tree: appends one element per dictionary item, in order. */
  method CreateXmlTree(dict: Dict, root: Element)
    requires root.Apart()
    modifies root`children, root`Repr
    ensures root.Apart() && root.text == old(root.text) && root.tail == old(root.tail)
    ensures root.Kids() == old(root.Kids()) + Build(dict.items)
    ensures fresh(root.Repr - old(root.Repr))
    decreases dict, 0
  {
    hide BuildEntry, Build, Element.Apart, Element.Views, Element.Kids, Element.View, Element.Valid;
    var items := dict.items;
    BuildNothing();
    for i := 0 to |items|
      invariant root.Apart() && root.text == old(root.text) && root.tail == old(root.tail)
      invariant root.Kids() == old(root.Kids()) + Build(items[..i])
      invariant fresh(root.Repr - old(root.Repr))
    {
      AppendEntry(items[i], root);
      BuildNext(items, i);
    }
    assert items[..|items|] == items;
  }

  lemma BuildNothing()
    ensures Build([]) == []
  {
  }

  lemma BuildNext(items: seq<Entry>, i: nat)
    requires i < |items|
    ensures Build(items[..i + 1]) == Build(items[..i]) + [BuildEntry(items[i])]
  {
    hide BuildEntry;
    assert items[..i + 1][..i] == items[..i];
  }

  /** One item: builds its element completely, then appends it. */
  method AppendEntry(e: Entry, root: Element)
    requires root.Apart()
    modifies root`children, root`Repr
    ensures root.Apart() && root.text == old(root.text) && root.tail == old(root.tail)
    ensures root.Kids() == old(root.Kids()) + [BuildEntry(e)]
    ensures fresh(root.Repr - old(root.Repr))
    decreases e, 1
  {
    hide BuildEntry, Element.Views, Element.Kids, Element.View, Element.Valid;
    var element := NewElement(e);
    root.Append(element);
  }

  method NewElement(e: Entry) returns (element: Element)
    ensures element.Valid() && fresh(element.Repr) && element.View() == BuildEntry(e)
    decreases e, 0
  {
    hide Element.Views, Element.Kids, Element.View, Element.Valid, Build, BuildList;
    element := new Element(Named(e.key.name));
    element.ViewOfKids();
    if e.key.WithAttributes? {
      element.SetAttributes(e.key.attributes);
    }
    match e.value {
      case TextValue(text) => element.text := text;
      case DictValue(dict) => CreateXmlTree(dict, element);
      case ListValue(dicts) => CreateFromList(dicts, element);
    }
    element.ValidIsApart();
    element.ViewOfKids();
  }

  /** The items of several dictionaries below the same element. */
  method CreateFromList(dicts: seq<Dict>, element: Element)
    requires element.Apart()
    modifies element`children, element`Repr
    ensures element.Apart() && element.text == old(element.text) && element.tail == old(element.tail)
    ensures element.Kids() == old(element.Kids()) + BuildList(dicts)
    ensures fresh(element.Repr - old(element.Repr))
    decreases dicts, 0
  {
    hide Build, Element.Views, Element.Kids;
    for j := 0 to |dicts|
      invariant element.Apart() && element.text == old(element.text) && element.tail == old(element.tail)
      invariant element.Kids() == old(element.Kids()) + BuildList(dicts[..j])
      invariant fresh(element.Repr - old(element.Repr))
    {
      CreateXmlTree(dicts[j], element);
      assert dicts[..j + 1][..j] == dicts[..j];
      assert BuildDict(dicts[j]) == Build(dicts[j].items);
    }
    assert dicts[..|dicts|] == dicts;
  }

  method NewComment(text: string) returns (comment: Element)
    ensures comment.Valid() && fresh(comment.Repr) && comment.View() == CommentNode(text)
  {
    hide Element.Views, Element.Kids, Element.View, Element.Valid;
    comment := new Element(Comment);
    comment.ViewOfKids();
    comment.text := Some(text);
    comment.ViewOfKids();
  }

  /** create_xml_config_content up to serialisation: comment, items, then indentation of the whole tree. */
  method CreateXmlConfigContent(dict: Dict, uid: string, rootName: string) returns (root: Element)
    ensures root.Valid() && fresh(root.Repr)
    ensures root.View() == Indent(ConfigTree(rootName, uid, dict), 0, DEFAULT_PAD)
    ensures var r := root.View();
            r.tag == Named(rootName) && r.attributes == [] && r.tail == Some("\n")
            && |r.children| == 1 + |dict.items|
            && r.children[0].tag == Comment && r.children[0].text == Some("config uid: " + uid)
            && ReadAll(r.children[1..]) == NormalizeAll(dict.items)
            && LaidOut(r, 0) && Indent(r, 0, DEFAULT_PAD) == r
  {
    hide Element.Views, Element.Kids, Element.View, Element.Valid, Build, Indent, LaidOut, ReadAll, NormalizeAll;
    root := new Element(Named(rootName));
    root.ViewOfKids();
    var comment := NewComment("config uid: " + uid);
    root.Append(comment);
    assert root.Kids() == [CommentNode("config uid: " + uid)];
    CreateXmlTree(dict, root);
    root.ValidIsApart();
    root.ViewOfKids();
    assert root.View() == ConfigTree(rootName, uid, dict);
    root.XmlIndent(0, DEFAULT_PAD);
    ConfigTreeReadsBack(rootName, uid, dict);
  }
}
