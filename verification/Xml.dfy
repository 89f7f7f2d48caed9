/** XML trees as values: what indenting a tree and building one from a dictionary mean. */
module Xml {
  import opened Text

  datatype Tag = Named(name: string) | Comment

  type Attributes = seq<(string, string)>

  datatype Node = Node(tag: Tag, attributes: Attributes, text: Option<string>, tail: Option<string>, children: seq<Node>)

  // ----- blank text

  /** The characters that Python's str.strip() removes. */
  predicate IsSpace(c: char) {
    var n := c as int;
    || 0x09 <= n <= 0x0D || 0x1C <= n <= 0x20 || n == 0x85 || n == 0xA0 || n == 0x1680
    || 0x2000 <= n <= 0x200A || n == 0x2028 || n == 0x2029 || n == 0x202F || n == 0x205F || n == 0x3000
  }

  /** Among the ASCII characters: blanks, the five layout characters and the four separators. */
  lemma AsciiSpaces(c: char)
    requires c as int < 128
    ensures IsSpace(c) <==>
              c in {' ', '\t', '\n', '\r', '\U{0B}', '\U{0C}', '\U{1C}', '\U{1D}', '\U{1E}', '\U{1F}'}
  {
  }

  predicate IsBlankText(s: string) {
    forall c | c in s :: IsSpace(c)
  }

  predicate IsBlank(t: Option<string>) {
    t.None? || IsBlankText(t.value)
  }

  function Fill(t: Option<string>, line: string): Option<string> {
    if IsBlank(t) then Some(line) else t
  }

  // ----- indenting

  const DEFAULT_PAD := "  "

  function RepeatText(s: string, count: nat): string {
    if count == 0 then "" else RepeatText(s, count - 1) + s
  }

  /** A line break followed by the indentation of a level. */
  function Line(level: nat, pad: string): string {
    "\n" + RepeatText(pad, level)
  }

  /** xml_indent on values. The nested calls use the default step, whatever `pad` is; the last child's
      tail is filled a second time, with the line of the parent. */
  function Indent(n: Node, level: nat, pad: string): (r: Node)
    ensures |r.children| == |n.children|
    decreases n, 1
  {
    if n.children != [] then
      var children := IndentAll(n.children, level + 1);
      var last := |children| - 1;
      Node(n.tag, n.attributes, Fill(n.text, Line(level, pad) + pad), Fill(n.tail, Line(level, pad)),
           ReplaceLast(children, CloseLevel(children[last], level, pad)))
    else if level > 0 then
      n.(tail := Fill(n.tail, Line(level, pad)))
    else
      n
  }

  function ReplaceLast(ns: seq<Node>, n: Node): (r: seq<Node>)
    requires ns != []
    ensures |r| == |ns|
  {
    ns[..|ns| - 1] + [n]
  }

  lemma ReplaceLastAt(ns: seq<Node>, n: Node)
    requires ns != []
    ensures forall i | 0 <= i < |ns| :: ReplaceLast(ns, n)[i] == if i < |ns| - 1 then ns[i] else n
  {
  }

  /** The last child's tail leads back to the parent's indentation. `Indent` has just filled it, so
      a blank tail is the child's own line. */
  function CloseLevel(child: Node, level: nat, pad: string): Node {
    child.(tail := Fill(child.tail, Line(level, pad)))
  }

  function IndentAll(ns: seq<Node>, level: nat): (r: seq<Node>)
    ensures |r| == |ns|
    ensures forall i | 0 <= i < |ns| :: r[i] == Indent(ns[i], level, DEFAULT_PAD)
    decreases ns, 0
  {
    if ns == [] then [] else [Indent(ns[0], level, DEFAULT_PAD)] + IndentAll(ns[1..], level)
  }

  /** A line of the default layout: a line break and two blanks for each level. */
  lemma {:induction false} DefaultLine(level: nat)
    ensures Line(level, DEFAULT_PAD) == "\n" + Repeat(' ', 2 * level)
  {
    if level > 0 {
      DefaultLine(level - 1);
      assert RepeatText(DEFAULT_PAD, level - 1) == Line(level - 1, DEFAULT_PAD)[1..];
      assert RepeatText(DEFAULT_PAD, level) == Repeat(' ', 2 * level);
    }
  }

  // ----- what indenting keeps

  function Forget(t: Option<string>): Option<string> {
    if IsBlank(t) then None else t
  }

  /** The tree without layout: blank tails and blank texts of branches are dropped. Texts of leaves stay. */
  function Erase(n: Node): (r: Node)
    ensures |r.children| == |n.children|
    decreases n, 1
  {
    Node(n.tag, n.attributes, if n.children == [] then n.text else Forget(n.text), Forget(n.tail), EraseAll(n.children))
  }

  function EraseAll(ns: seq<Node>): (r: seq<Node>)
    ensures |r| == |ns|
    ensures forall i | 0 <= i < |ns| :: r[i] == Erase(ns[i])
    decreases ns, 0
  {
    if ns == [] then [] else [Erase(ns[0])] + EraseAll(ns[1..])
  }

  lemma {:induction false} RepeatIsBlank(pad: string, level: nat)
    requires IsBlankText(pad)
    ensures IsBlankText(RepeatText(pad, level))
  {
    if level > 0 { RepeatIsBlank(pad, level - 1); }
  }

  lemma LineIsBlank(level: nat, pad: string)
    requires IsBlankText(pad)
    ensures IsBlankText(Line(level, pad)) && IsBlankText(Line(level, pad) + pad)
  {
    RepeatIsBlank(pad, level);
  }

  lemma FillForgets(t: Option<string>, line: string)
    requires IsBlankText(line)
    ensures Forget(Fill(t, line)) == Forget(t)
  {
  }

  lemma EraseCloseLevel(child: Node, level: nat, pad: string)
    requires IsBlankText(pad)
    ensures Erase(CloseLevel(child, level, pad)) == Erase(child)
  {
    LineIsBlank(level, pad);
    FillForgets(child.tail, Line(level, pad));
  }

  /** Indenting changes nothing but layout: tags, attributes, order, texts of leaves and every text or
      tail that is not blank survive. */
  lemma {:induction false} IndentKeepsContent(n: Node, level: nat, pad: string)
    requires IsBlankText(pad)
    ensures Erase(Indent(n, level, pad)) == Erase(n)
    decreases n, 1
  {
    hide IsBlankText, Line, CloseLevel, Fill, Forget;
    LineIsBlank(level, pad);
    FillForgets(n.tail, Line(level, pad));
    if n.children != [] {
      FillForgets(n.text, Line(level, pad) + pad);
      IndentAllKeepsContent(n.children, level + 1);
      ClosingKeepsContent(IndentAll(n.children, level + 1), level, pad);
    }
  }

  lemma EraseAllPointwise(a: seq<Node>, b: seq<Node>)
    requires |a| == |b| && forall i | 0 <= i < |a| :: Erase(a[i]) == Erase(b[i])
    ensures EraseAll(a) == EraseAll(b)
  {
    hide Erase, EraseAll;
  }

  lemma ClosingKeepsContent(kids: seq<Node>, level: nat, pad: string)
    requires kids != [] && IsBlankText(pad)
    ensures EraseAll(ReplaceLast(kids, CloseLevel(kids[|kids| - 1], level, pad))) == EraseAll(kids)
  {
    hide *;
    var closed := CloseLevel(kids[|kids| - 1], level, pad);
    EraseCloseLevel(kids[|kids| - 1], level, pad);
    ReplaceLastAt(kids, closed);
    EraseAllPointwise(ReplaceLast(kids, closed), kids);
  }

  lemma {:induction false} IndentAllKeepsContent(ns: seq<Node>, level: nat)
    ensures EraseAll(IndentAll(ns, level)) == EraseAll(ns)
    decreases ns, 0
  {
    if ns != [] {
      IndentKeepsContent(ns[0], level, DEFAULT_PAD);
      IndentAllKeepsContent(ns[1..], level);
      assert IndentAll(ns, level)[1..] == IndentAll(ns[1..], level);
    }
  }

  /** Filling this node with a step that is not blank writes no visible text: whatever it would write
      at a level with an indentation of its own is already there. */
  predicate NothingVisible(n: Node, level: nat) {
    && (n.children != [] ==> !IsBlank(n.text))
    && (level > 0 ==> !IsBlank(n.tail) && (n.children != [] ==> !IsBlank(n.children[|n.children| - 1].tail)))
  }

  /** For any step, blank or not, and any level: content is kept exactly when the step is blank or it is
      never written. */
  lemma KeepsContentExactly(n: Node, level: nat, pad: string)
    ensures Erase(Indent(n, level, pad)) == Erase(n) <==> IsBlankText(pad) || NothingVisible(n, level)
  {
    hide IsBlankText, Line, RepeatText;
    if IsBlankText(pad) {
      IndentKeepsContent(n, level, pad);
    } else {
      BlankBasics(pad);
      LineVisible(level, pad);
      if n.children != [] {
        VisibleBranch(n, level, pad);
      }
    }
  }

  lemma LineVisible(level: nat, pad: string)
    requires !IsBlankText(pad)
    ensures IsBlankText(Line(level, pad)) <==> level == 0
    ensures !IsBlankText(Line(level, pad) + pad)
  {
    BlankBasics(pad);
    var c :| c in pad && !IsSpace(c);
    assert c in Line(level, pad) + pad;
    if level > 0 {
      assert c in Line(level, pad);
    }
  }

  /** What a visible step does to a branch, part by part. */
  lemma VisibleBranch(n: Node, level: nat, pad: string)
    requires n.children != [] && !IsBlankText(Line(level, pad) + pad)
    requires IsBlankText(Line(level, pad)) <==> level == 0
    ensures Erase(Indent(n, level, pad)) == Erase(n) <==> NothingVisible(n, level)
  {
    hide IsBlankText, Line, Erase, EraseAll, CloseLevel, IndentAll;
    var kids := IndentAll(n.children, level + 1);
    var last := |n.children| - 1;
    var closed := CloseLevel(kids[last], level, pad);
    IndentAllKeepsContent(n.children, level + 1);
    KidTail(n.children, level);
    CloseVisible(kids[last], level, pad);
    EraseLast(kids, closed);
    EraseParts(n);
    EraseParts(Indent(n, level, pad));
  }

  lemma EraseParts(n: Node)
    ensures Erase(n) == Node(n.tag, n.attributes, if n.children == [] then n.text else Forget(n.text), Forget(n.tail),
                             EraseAll(n.children))
  {
  }

  /** Indenting fills the last child's tail, blank or not, with blank text only. */
  lemma KidTail(ns: seq<Node>, level: nat)
    requires ns != []
    ensures IsBlank(IndentAll(ns, level + 1)[|ns| - 1].tail) <==> IsBlank(ns[|ns| - 1].tail)
  {
    hide IsBlankText, Line;
    var child := ns[|ns| - 1];
    assert IsBlankText(DEFAULT_PAD) by { DefaultIsBlank(); }
    LineIsBlank(level + 1, DEFAULT_PAD);
    IndentTail(child, child.tail, level + 1, DEFAULT_PAD);
    assert child.(tail := child.tail) == child;
  }

  lemma DefaultIsBlank()
    ensures IsBlankText(DEFAULT_PAD)
  {
  }

  lemma CloseVisible(child: Node, level: nat, pad: string)
    requires IsBlankText(Line(level, pad)) <==> level == 0
    ensures Erase(CloseLevel(child, level, pad)) == Erase(child) <==> level == 0 || !IsBlank(child.tail)
  {
    hide IsBlankText, Line;
  }

  lemma EraseLast(kids: seq<Node>, closed: Node)
    requires kids != []
    ensures EraseAll(ReplaceLast(kids, closed)) == EraseAll(kids) <==> Erase(closed) == Erase(kids[|kids| - 1])
  {
    hide Erase, ReplaceLast, EraseAll;
    ReplaceLastAt(kids, closed);
    var last := |kids| - 1;
    var replaced := ReplaceLast(kids, closed);
    assert EraseAll(replaced)[last] == Erase(closed) && EraseAll(kids)[last] == Erase(kids[last]);
    if Erase(closed) == Erase(kids[last]) {
      EraseAllPointwise(replaced, kids);
    }
  }

  lemma BlankBasics(pad: string)
    ensures IsBlankText("") && IsBlankText("\n") && Line(0, pad) == "\n"
    ensures IsBlankText("\n" + pad) <==> IsBlankText(pad)
  {
    assert forall c | c in pad :: c in "\n" + pad;
  }

  // ----- indenting twice

  lemma FillTwice(t: Option<string>, first: string, second: string)
    ensures Fill(Fill(Fill(Fill(t, first), second), first), second) == Fill(Fill(t, first), second)
    ensures Fill(Fill(t, first), first) == Fill(t, first)
  {
  }

  /** Only the tail of the result depends on the tail of the tree. */
  lemma IndentTail(n: Node, tail: Option<string>, level: nat, pad: string)
    ensures Indent(n.(tail := tail), level, pad)
         == Indent(n, level, pad).(tail := if n.children != [] || level > 0 then Fill(tail, Line(level, pad)) else tail)
  {
  }

  /** A second run changes nothing, at any level and for any step. */
  lemma {:induction false} IndentIsIdempotent(n: Node, level: nat, pad: string)
    ensures Indent(Indent(n, level, pad), level, pad) == Indent(n, level, pad)
    decreases n, 1
  {
    hide Line, Fill, CloseLevel, IndentAll;
    var r := Indent(n, level, pad);
    FillTwice(n.tail, Line(level, pad), Line(level, pad));
    FillTwice(n.text, Line(level, pad) + pad, "");
    if n.children != [] {
      var last := |n.children| - 1;
      forall i | 0 <= i < last ensures Indent(r.children[i], level + 1, DEFAULT_PAD) == r.children[i] {
        IndentIsIdempotent(n.children[i], level + 1, DEFAULT_PAD);
      }
      IndentIsIdempotent(n.children[last], level + 1, DEFAULT_PAD);
      LastChildTwice(n.children[last], level, pad);
      ChildrenTwice(r.children, level, pad);
    }
  }

  /** Children that are stable, the last one after its tail is closed, stay as they are. */
  lemma ChildrenTwice(ns: seq<Node>, level: nat, pad: string)
    requires ns != []
    requires forall i | 0 <= i < |ns| - 1 :: Indent(ns[i], level + 1, DEFAULT_PAD) == ns[i]
    requires CloseLevel(Indent(ns[|ns| - 1], level + 1, DEFAULT_PAD), level, pad) == ns[|ns| - 1]
    ensures var again := IndentAll(ns, level + 1);
            ReplaceLast(again, CloseLevel(again[|ns| - 1], level, pad)) == ns
  {
    hide Indent, CloseLevel;
  }

  lemma LastChildTwice(child: Node, level: nat, pad: string)
    requires Indent(Indent(child, level + 1, DEFAULT_PAD), level + 1, DEFAULT_PAD) == Indent(child, level + 1, DEFAULT_PAD)
    ensures var closed := CloseLevel(Indent(child, level + 1, DEFAULT_PAD), level, pad);
            CloseLevel(Indent(closed, level + 1, DEFAULT_PAD), level, pad) == closed
  {
    hide Line, Indent;
    var kid := Indent(child, level + 1, DEFAULT_PAD);
    var closed := CloseLevel(kid, level, pad);
    IndentTail(kid, closed.tail, level + 1, DEFAULT_PAD);
    IndentTail(child, child.tail, level + 1, DEFAULT_PAD);
    FillTwice(child.tail, Line(level + 1, DEFAULT_PAD), Line(level, pad));
    assert child.(tail := child.tail) == child;
  }

  // ----- the layout

  /** Below this node nothing but texts of leaves has been written yet. */
  predicate Unlaid(n: Node)
    decreases n
  {
    (n.children != [] ==> IsBlank(n.text)) && forall c | c in n.children :: IsBlank(c.tail) && Unlaid(c)
  }

  /** A branch's text is a line at the level of its children, and so is every child's tail, except that
      the last one returns to the level of the branch. */
  predicate LaidOut(n: Node, level: nat)
    decreases n
  {
    (n.children != [] ==> n.text == Some(Line(level + 1, DEFAULT_PAD)))
    && forall i | 0 <= i < |n.children| ::
         n.children[i].tail == Some(Line(if i == |n.children| - 1 then level else level + 1, DEFAULT_PAD))
         && LaidOut(n.children[i], level + 1)
  }

  lemma {:induction false} IndentLaysOut(n: Node, level: nat)
    requires Unlaid(n)
    ensures LaidOut(Indent(n, level, DEFAULT_PAD), level)
    decreases n
  {
    hide Line, CloseLevel, IsBlankText, IndentAll;
    if n.children != [] {
      var r := Indent(n, level, DEFAULT_PAD);
      var last := |n.children| - 1;
      NextLine(level);
      var kids := IndentAll(n.children, level + 1);
      ReplaceLastAt(kids, CloseLevel(kids[last], level, DEFAULT_PAD));
      forall i | 0 <= i < |r.children|
        ensures r.children[i].tail == Some(Line(if i == last then level else level + 1, DEFAULT_PAD))
        ensures LaidOut(r.children[i], level + 1)
      {
        assert n.children[i] in n.children;
        IndentLaysOut(n.children[i], level + 1);
        ChildLaidOut(n.children[i], level);
      }
    }
  }

  /** A child with a blank tail gets its own line, and as the last child its parent's. */
  lemma ChildLaidOut(c: Node, level: nat)
    requires IsBlank(c.tail) && LaidOut(Indent(c, level + 1, DEFAULT_PAD), level + 1)
    ensures var kid := Indent(c, level + 1, DEFAULT_PAD);
            var closed := CloseLevel(kid, level, DEFAULT_PAD);
            kid.tail == Some(Line(level + 1, DEFAULT_PAD)) && closed.tail == Some(Line(level, DEFAULT_PAD))
            && LaidOut(closed, level + 1)
  {
    hide IsBlankText, Line, Indent, LaidOut;
    assert IsBlankText(DEFAULT_PAD) by { DefaultIsBlank(); }
    LineIsBlank(level + 1, DEFAULT_PAD);
    IndentTail(c, c.tail, level + 1, DEFAULT_PAD);
    assert c.(tail := c.tail) == c;
    var kid := Indent(c, level + 1, DEFAULT_PAD);
    LaidOutIgnoresTail(kid, CloseLevel(kid, level, DEFAULT_PAD), level + 1);
  }

  lemma NextLine(level: nat)
    ensures Line(level, DEFAULT_PAD) + DEFAULT_PAD == Line(level + 1, DEFAULT_PAD)
  {
  }

  lemma LaidOutIgnoresTail(n: Node, m: Node, level: nat)
    requires n.children == m.children && n.text == m.text
    ensures LaidOut(n, level) == LaidOut(m, level)
  {
  }

  // ----- building a tree from a dictionary

  datatype Key = Plain(name: string) | WithAttributes(name: string, attributes: Attributes)

  /** A leaf holds its text, or Python's None. */
  datatype Value = TextValue(text: Option<string>) | DictValue(dict: Dict) | ListValue(dicts: seq<Dict>)

  datatype Entry = Entry(key: Key, value: Value)

  /** A dictionary is the sequence of its items in insertion order. */
  datatype Dict = Dict(items: seq<Entry>)

  function KeyAttributes(k: Key): Attributes {
    match k
    case Plain(_) => []
    case WithAttributes(_, attributes) => attributes
  }

  function BuildEntry(e: Entry): Node
    decreases e, 1
  {
    var tag, attributes := Named(e.key.name), KeyAttributes(e.key);
    match e.value
    case TextValue(text) => Node(tag, attributes, text, None, [])
    case DictValue(dict) => Node(tag, attributes, None, None, BuildDict(dict))
    case ListValue(dicts) => Node(tag, attributes, None, None, BuildList(dicts))
  }

  /** The elements create_xml_tree appends for a dictionary. */
  function BuildDict(d: Dict): seq<Node>
    decreases d, 1
  {
    Build(d.items)
  }

  function Build(entries: seq<Entry>): (r: seq<Node>)
    ensures |r| == |entries|
    decreases entries, 0
  {
    if entries == [] then [] else Build(entries[..|entries| - 1]) + [BuildEntry(entries[|entries| - 1])]
  }

  function BuildList(dicts: seq<Dict>): seq<Node>
    decreases dicts, 0
  {
    if dicts == [] then [] else BuildList(dicts[..|dicts| - 1]) + BuildDict(dicts[|dicts| - 1])
  }

  /** The dictionary with every list of dictionaries replaced by its concatenation, at every depth,
      every key given explicit attributes, and every None replaced by an empty dictionary: both make
      an empty element. */
  function Normalize(e: Entry): Entry
    decreases e, 1
  {
    var key := WithAttributes(e.key.name, if e.key.WithAttributes? then e.key.attributes else []);
    match e.value
    case TextValue(text) => Entry(key, if text.Some? then TextValue(text) else DictValue(Dict([])))
    case DictValue(dict) => Entry(key, DictValue(NormalizeDict(dict)))
    case ListValue(dicts) => Entry(key, DictValue(Dict(NormalizeLists(dicts))))
  }

  function NormalizeDict(d: Dict): Dict
    decreases d, 1
  {
    Dict(NormalizeAll(d.items))
  }

  function NormalizeAll(entries: seq<Entry>): (r: seq<Entry>)
    ensures |r| == |entries|
    decreases entries, 0
  {
    if entries == [] then [] else NormalizeAll(entries[..|entries| - 1]) + [Normalize(entries[|entries| - 1])]
  }

  function NormalizeLists(dicts: seq<Dict>): seq<Entry>
    decreases dicts, 0
  {
    if dicts == [] then [] else NormalizeLists(dicts[..|dicts| - 1]) + NormalizeDict(dicts[|dicts| - 1]).items
  }

  function ReadName(t: Tag): string {
    match t
    case Named(name) => name
    case Comment => ""
  }

  /** Reads an element back as a dictionary item: a childless element with text is a text, anything
      else is a dictionary of its children. Layout is ignored. */
  function Read(n: Node): Entry
    decreases n, 1
  {
    Entry(WithAttributes(ReadName(n.tag), n.attributes),
          if n.children == [] && n.text.Some? then TextValue(n.text) else DictValue(Dict(ReadAll(n.children))))
  }

  function ReadAll(ns: seq<Node>): (r: seq<Entry>)
    ensures |r| == |ns|
    ensures forall i | 0 <= i < |ns| :: r[i] == Read(ns[i])
    decreases ns, 0
  {
    if ns == [] then [] else [Read(ns[0])] + ReadAll(ns[1..])
  }

  lemma ReadAllConcat(a: seq<Node>, b: seq<Node>)
    ensures ReadAll(a + b) == ReadAll(a) + ReadAll(b)
  {
  }

  /** An element carries its key's name and exactly the attributes the key was given. */
  lemma BuiltNameAndAttributes(e: Entry)
    ensures BuildEntry(e).tag == Named(e.key.name)
    ensures BuildEntry(e).attributes == if e.key.WithAttributes? then e.key.attributes else []
  {
  }

  /** The built elements read back as exactly the given items: nothing merged, dropped or reordered,
      lists of dictionaries concatenated, at every depth. */
  lemma {:induction false} BuildReadsBack(entries: seq<Entry>)
    ensures ReadAll(Build(entries)) == NormalizeAll(entries)
    decreases entries, 0
  {
    if entries != [] {
      var last := |entries| - 1;
      BuildReadsBack(entries[..last]);
      BuildEntryReadsBack(entries[last]);
      ReadAllConcat(Build(entries[..last]), [BuildEntry(entries[last])]);
    }
  }

  lemma {:induction false} BuildDictReadsBack(d: Dict)
    ensures Dict(ReadAll(BuildDict(d))) == NormalizeDict(d)
    decreases d, 1
  {
    BuildReadsBack(d.items);
  }

  lemma {:induction false} BuildListReadsBack(dicts: seq<Dict>)
    ensures ReadAll(BuildList(dicts)) == NormalizeLists(dicts)
    decreases dicts, 0
  {
    if dicts != [] {
      var last := |dicts| - 1;
      BuildListReadsBack(dicts[..last]);
      BuildDictReadsBack(dicts[last]);
      ReadAllConcat(BuildList(dicts[..last]), BuildDict(dicts[last]));
    }
  }

  lemma {:induction false} BuildEntryReadsBack(e: Entry)
    ensures Read(BuildEntry(e)) == Normalize(e)
    decreases e, 1
  {
    match e.value
    case TextValue(text) =>
    case DictValue(dict) => BuildDictReadsBack(dict);
    case ListValue(dicts) => BuildListReadsBack(dicts);
  }

  /** A key holding a list of dictionaries builds the same element as one holding their concatenation. */
  lemma ListIsConcatenation(key: Key, dicts: seq<Dict>)
    ensures BuildEntry(Entry(key, ListValue(dicts))) == BuildEntry(Entry(key, DictValue(Dict(Flat(dicts)))))
  {
    BuildFlat(dicts);
  }

  function Flat(dicts: seq<Dict>): seq<Entry> {
    if dicts == [] then [] else Flat(dicts[..|dicts| - 1]) + dicts[|dicts| - 1].items
  }

  lemma {:induction false} BuildConcat(a: seq<Entry>, b: seq<Entry>)
    ensures Build(a + b) == Build(a) + Build(b)
  {
    if b == [] {
      assert a + b == a;
    } else {
      var last := |b| - 1;
      assert (a + b)[..|a| + last] == a + b[..last];
      BuildConcat(a, b[..last]);
    }
  }

  lemma {:induction false} BuildFlat(dicts: seq<Dict>)
    ensures BuildList(dicts) == Build(Flat(dicts))
  {
    if dicts != [] {
      var last := |dicts| - 1;
      BuildFlat(dicts[..last]);
      BuildConcat(Flat(dicts[..last]), dicts[last].items);
    }
  }

  /** Indenting does not change what a tree reads back as, for any level and step. */
  lemma {:induction false} IndentReadsTheSame(n: Node, level: nat, pad: string)
    ensures Read(Indent(n, level, pad)) == Read(n)
    decreases n, 1
  {
    hide Fill, Line, CloseLevel;
    if n.children != [] {
      IndentAllReadsTheSame(n.children, level + 1);
      ClosingReadsTheSame(IndentAll(n.children, level + 1), level, pad);
    }
  }

  lemma {:induction false} IndentAllReadsTheSame(ns: seq<Node>, level: nat)
    ensures ReadAll(IndentAll(ns, level)) == ReadAll(ns)
    decreases ns, 0
  {
    hide Indent;
    if ns != [] {
      IndentReadsTheSame(ns[0], level, DEFAULT_PAD);
      IndentAllReadsTheSame(ns[1..], level);
      assert IndentAll(ns, level)[1..] == IndentAll(ns[1..], level);
    }
  }

  lemma ReadAllPointwise(a: seq<Node>, b: seq<Node>)
    requires |a| == |b| && forall i | 0 <= i < |a| :: Read(a[i]) == Read(b[i])
    ensures ReadAll(a) == ReadAll(b)
  {
    hide Read, ReadAll;
  }

  lemma ClosingReadsTheSame(kids: seq<Node>, level: nat, pad: string)
    requires kids != []
    ensures ReadAll(ReplaceLast(kids, CloseLevel(kids[|kids| - 1], level, pad))) == ReadAll(kids)
  {
    hide *;
    var closed := CloseLevel(kids[|kids| - 1], level, pad);
    CloseReadsTheSame(kids[|kids| - 1], level, pad);
    ReplaceLastAt(kids, closed);
    ReadAllPointwise(ReplaceLast(kids, closed), kids);
  }

  lemma CloseReadsTheSame(n: Node, level: nat, pad: string)
    ensures Read(CloseLevel(n, level, pad)) == Read(n)
  {
  }

  // ----- the configuration file

  lemma {:induction false} BuiltIsUnlaid(entries: seq<Entry>)
    ensures forall n | n in Build(entries) :: IsBlank(n.tail) && Unlaid(n)
    decreases entries, 0
  {
    if entries != [] {
      BuiltIsUnlaid(entries[..|entries| - 1]);
      BuiltEntryIsUnlaid(entries[|entries| - 1]);
    }
  }

  lemma {:induction false} BuiltListIsUnlaid(dicts: seq<Dict>)
    ensures forall n | n in BuildList(dicts) :: IsBlank(n.tail) && Unlaid(n)
    decreases dicts, 0
  {
    if dicts != [] {
      BuiltListIsUnlaid(dicts[..|dicts| - 1]);
      BuiltDictIsUnlaid(dicts[|dicts| - 1]);
    }
  }

  lemma {:induction false} BuiltDictIsUnlaid(d: Dict)
    ensures forall n | n in BuildDict(d) :: IsBlank(n.tail) && Unlaid(n)
    decreases d, 1
  {
    BuiltIsUnlaid(d.items);
  }

  lemma {:induction false} BuiltEntryIsUnlaid(e: Entry)
    ensures IsBlank(BuildEntry(e).tail) && Unlaid(BuildEntry(e))
    decreases e, 1
  {
    match e.value
    case TextValue(_) =>
    case DictValue(dict) => BuiltDictIsUnlaid(dict);
    case ListValue(dicts) => BuiltListIsUnlaid(dicts);
  }

  function CommentNode(text: string): Node {
    Node(Comment, [], Some(text), None, [])
  }

  /** The tree of a configuration file before it is indented. */
  function ConfigTree(root: string, uid: string, dict: Dict): Node {
    Node(Named(root), [], None, None, [CommentNode("config uid: " + uid)] + Build(dict.items))
  }

  /** The indented tree still holds the comment with the uid and, after it, exactly the given items;
      it is laid out, and indenting it again would change nothing. */
  lemma ConfigTreeReadsBack(root: string, uid: string, dict: Dict)
    ensures var r := Indent(ConfigTree(root, uid, dict), 0, DEFAULT_PAD);
            r.tag == Named(root) && r.attributes == [] && r.tail == Some("\n")
            && |r.children| == 1 + |dict.items|
            && r.children[0].tag == Comment && r.children[0].text == Some("config uid: " + uid)
            && r.children[0].children == []
            && ReadAll(r.children[1..]) == NormalizeAll(dict.items)
            && LaidOut(r, 0) && Indent(r, 0, DEFAULT_PAD) == r
  {
    hide Build, LaidOut, Unlaid, Fill, Line;
    var tree := ConfigTree(root, uid, dict);
    var r := Indent(tree, 0, DEFAULT_PAD);
    IndentIsIdempotent(tree, 0, DEFAULT_PAD);
    ConfigIsUnlaid(root, uid, dict);
    IndentLaysOut(tree, 0);
    IndentReadsTheSame(tree, 0, DEFAULT_PAD);
    BlankBasics(DEFAULT_PAD);
    RootTail(tree);
    BuildReadsBack(dict.items);
    ConfigChildren(tree, r, dict.items);
  }

  /** A fresh root's own tail becomes a line break. */
  lemma RootTail(tree: Node)
    requires tree.children != [] && tree.tail.None?
    ensures Indent(tree, 0, DEFAULT_PAD).tail == Some(Line(0, DEFAULT_PAD))
  {
    hide Line;
  }

  lemma ConfigIsUnlaid(root: string, uid: string, dict: Dict)
    ensures Unlaid(ConfigTree(root, uid, dict))
  {
    BuiltIsUnlaid(dict.items);
    assert Unlaid(CommentNode("config uid: " + uid));
  }

  lemma ConfigChildren(tree: Node, r: Node, items: seq<Entry>)
    requires tree.children != [] && tree.children[1..] == Build(items)
    requires r.children != [] && Read(r) == Read(tree)
    ensures ReadAll(r.children[1..]) == ReadAll(Build(items))
  {
    hide Build;
    assert ReadAll(r.children) == ReadAll(tree.children);
    assert ReadAll(r.children)[1..] == ReadAll(r.children[1..]);
    assert ReadAll(tree.children)[1..] == ReadAll(tree.children[1..]);
  }
}
