/** The content tree: `ContentContainer` with its two node kinds, `Message`
    and `Article` (index.js lines 5-59). A node owns an ordered list of child
    nodes that `addElement` appends to and `removeElement` deletes from;
    `display` prints the node's own line and then, child by child, everything
    the child prints. */
module Composite {
  import opened Sequences

  /** The variant of a node, carrying the text it was constructed with. */
  datatype Kind = Message(content: string) | Article(title: string)

  /** A node with the children attached to it, as a value. */
  datatype Content = Node(kind: Kind, children: seq<Content>)

  /** The prefix an `Article` puts before its title. */
  const ArticlePrefix := "Стаття: "

  /** The one line a node prints about itself; the only step in which the two
      variants differ. */
  function OwnLine(k: Kind): (line: string)
    ensures k.Message? ==> line == k.content
    ensures k.Article? ==>
              |line| == |ArticlePrefix| + |k.title| &&
              line[..|ArticlePrefix|] == ArticlePrefix && line[|ArticlePrefix|..] == k.title
  {
    match k
    case Message(content) => content
    case Article(title) => ArticlePrefix + title
  }

  /** Everything `display` prints for the tree rooted at `c`, in order. A
      node's own line always comes first. */
  function DisplayLines(c: Content): (lines: seq<string>)
    decreases c, 1
    ensures |lines| >= 1 && lines[0] == OwnLine(c.kind)
  {
    [OwnLine(c.kind)] + DisplayLinesAll(c.children)
  }

  /** What the children `cs` print, one after the other: at least one line
      per child. */
  function DisplayLinesAll(cs: seq<Content>): (lines: seq<string>)
    decreases cs, 0
    ensures |lines| >= |cs|
  {
    if cs == [] then [] else DisplayLines(cs[0]) + DisplayLinesAll(cs[1..])
  }

  /** The number of nodes in the tree rooted at `c`. */
  function Size(c: Content): nat
    decreases c, 1
  {
    1 + SizeAll(c.children)
  }

  function SizeAll(cs: seq<Content>): nat
    decreases cs, 0
  {
    if cs == [] then 0 else Size(cs[0]) + SizeAll(cs[1..])
  }

  /** `display` prints exactly one line per node of the tree. */
  lemma {:induction false} DisplayLinesLength(c: Content)
    decreases c, 1
    ensures |DisplayLines(c)| == Size(c)
  {
    DisplayLinesAllLength(c.children);
  }

  lemma {:induction false} DisplayLinesAllLength(cs: seq<Content>)
    decreases cs, 0
    ensures |DisplayLinesAll(cs)| == SizeAll(cs)
  {
    if cs != [] {
      DisplayLinesLength(cs[0]);
      DisplayLinesAllLength(cs[1..]);
    }
  }

  /** The output for a list of children is the output for a prefix followed by
      the output for the rest: children print in list order. */
  lemma {:induction false} DisplayLinesAllAppend(a: seq<Content>, b: seq<Content>)
    ensures DisplayLinesAll(a + b) == DisplayLinesAll(a) + DisplayLinesAll(b)
  {
    if a == [] {
      assert a + b == b;
    } else {
      assert (a + b)[0] == a[0];
      assert (a + b)[1..] == a[1..] + b;
      DisplayLinesAllAppend(a[1..], b);
    }
  }

  /** Pre-order: inside the output of `c`, child `i` contributes its complete
      output as one contiguous block, right after the own line of `c` and the
      blocks of the children before it. */
  lemma ChildBlock(c: Content, i: nat)
    requires i < |c.children|
    ensures var o := 1 + |DisplayLinesAll(c.children[..i])|;
            o + |DisplayLines(c.children[i])| <= |DisplayLines(c)| &&
            DisplayLines(c)[o..o + |DisplayLines(c.children[i])|] == DisplayLines(c.children[i])
  {
    var cs := c.children;
    assert cs == cs[..i] + [cs[i]] + cs[i + 1..];
    DisplayLinesAllAppend(cs[..i] + [cs[i]], cs[i + 1..]);
    DisplayLinesAllAppend(cs[..i], [cs[i]]);
    assert DisplayLinesAll([cs[i]]) == DisplayLines(cs[i]) by {
      assert [cs[i]][1..] == [];
    }
  }

  /** Appending a child appends that child's whole output to the parent's. */
  lemma DisplayAfterAdd(k: Kind, cs: seq<Content>, e: Content)
    ensures DisplayLines(Node(k, cs + [e])) == DisplayLines(Node(k, cs)) + DisplayLines(e)
  {
    DisplayLinesAllAppend(cs, [e]);
    assert DisplayLinesAll([e]) == DisplayLines(e) by {
      assert [e][1..] == [];
    }
  }

  /** Removing a present child drops exactly that child's block from what the
      children print and keeps the blocks of the other children in order. */
  lemma DisplayAfterRemove(k: Kind, cs: seq<Content>, e: Content)
    requires e in cs
    ensures var i := IndexOf(cs, e);
            DisplayLinesAll(cs) ==
              DisplayLinesAll(cs[..i]) + DisplayLines(e) + DisplayLinesAll(cs[i + 1..]) &&
            DisplayLinesAll(RemoveFirst(cs, e)) ==
              DisplayLinesAll(cs[..i]) + DisplayLinesAll(cs[i + 1..])
  {
    var i := IndexOf(cs, e);
    var before, after := cs[..i], cs[i + 1..];
    RemoveFirstIsSplice(cs, e);
    assert cs == before + [e] + after;
    AllOfSplit(before, e, after);
    DisplayLinesAllAppend(before, after);
  }

  /** The children's output around one child `e`. */
  lemma AllOfSplit(before: seq<Content>, e: Content, after: seq<Content>)
    ensures DisplayLinesAll(before + [e] + after) ==
              DisplayLinesAll(before) + DisplayLines(e) + DisplayLinesAll(after)
  {
    DisplayLinesAllAppend(before + [e], after);
    DisplayLinesAllAppend(before, [e]);
    assert DisplayLinesAll([e]) == DisplayLines(e) by {
      assert [e][1..] == [];
    }
  }

  /** Removing an absent child leaves the output as it was. */
  lemma DisplayAfterRemoveAbsent(k: Kind, cs: seq<Content>, e: Content)
    requires e !in cs
    ensures DisplayLines(Node(k, RemoveFirst(cs, e))) == DisplayLines(Node(k, cs))
  {
    RemoveFirstAbsent(cs, e);
  }

  /** An `Article` "R" whose children are the `Message` "A" (itself holding the
      `Message` "C") and then the `Message` "B" prints R's line, A, C, B. */
  lemma PreOrderExample()
    ensures DisplayLines(Node(Article("R"), [Node(Message("A"), [Node(Message("C"), [])]),
                                             Node(Message("B"), [])]))
         == [ArticlePrefix + "R", "A", "C", "B"]
  {
    var c := Node(Message("C"), []);
    var a := Node(Message("A"), [c]);
    var b := Node(Message("B"), []);
    assert DisplayLines(c) == ["C"];
    assert DisplayLines(a) == ["A", "C"] by {
      assert [c][1..] == [];
    }
    assert DisplayLines(b) == ["B"];
    assert DisplayLinesAll([a, b]) == ["A", "C", "B"] by {
      assert [a, b][1..] == [b];
      assert [b][1..] == [];
    }
  }

  /** A `Message` or `Article` object: its kind and text are fixed at
      construction, its list of children (`elements`) changes in place. */
  class ContentNode {
    const kind: Kind
    var elements: seq<Content>

    /** `new Message(content)`. */
    constructor Message(content: string)
      ensures kind == Kind.Message(content) && elements == []
    {
      kind := Kind.Message(content);
      elements := [];
    }

    /** `new Article(title)`. */
    constructor Article(title: string)
      ensures kind == Kind.Article(title) && elements == []
    {
      kind := Kind.Article(title);
      elements := [];
    }

    /** The node and its current children, as a value. */
    function Snapshot(): Content
      reads this
    {
      Node(kind, elements)
    }

    /** `addElement`: push onto the end of the child list. */
    method AddElement(element: Content)
      modifies this
      ensures elements == old(elements) + [element]
      ensures DisplayLines(Snapshot()) == old(DisplayLines(Snapshot())) + DisplayLines(element)
    {
      DisplayAfterAdd(kind, elements, element);
      elements := elements + [element];
    }

    /** `removeElement`: find the element with `indexOf` and, if it is there,
        `splice` it out; otherwise do nothing. */
    method RemoveElement(element: Content)
      modifies this
      ensures elements == RemoveFirst(old(elements), element)
      ensures element !in old(elements) ==> elements == old(elements)
      ensures element in old(elements) ==>
                |elements| == |old(elements)| - 1 &&
                multiset(elements) == multiset(old(elements)) - multiset{element}
    {
      var index := IndexOf(elements, element);
      if index != -1 {
        RemoveFirstPresent(elements, element);
        elements := elements[..index] + elements[index + 1..];
      } else {
        RemoveFirstAbsent(elements, element);
      }
    }

    /** `display`: the own line, then each child's output in list order. */
    method Display() returns (lines: seq<string>)
      ensures lines == DisplayLines(Snapshot())
    {
      lines := [OwnLine(kind)];
      for i := 0 to |elements|
        invariant lines == [OwnLine(kind)] + DisplayLinesAll(elements[..i])
      {
        DisplayLinesAllAppend(elements[..i], [elements[i]]);
        assert DisplayLinesAll([elements[i]]) == DisplayLines(elements[i]) by {
          assert [elements[i]][1..] == [];
        }
        assert elements[..i + 1] == elements[..i] + [elements[i]];
        lines := lines + DisplayLines(elements[i]);
      }
      assert elements[..|elements|] == elements;
    }
  }
}
