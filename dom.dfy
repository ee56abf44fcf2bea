/** The document tree that the markup parser (htmlparser2 with domhandler)
    hands to the extractor, reduced to what the extractor looks at. */
module Dom {

  /** A node of the tree. `Tag` is exactly what domhandler's `isTag` accepts;
      its `attribs` maps each attribute the tag carries to its raw value.
      `Other` stands for every other node kind (text, comment, directive,
      CDATA, ...), with whatever children it has. */
  datatype Node =
    | Tag(name: string, attribs: map<string, string>, children: seq<Node>)
    | Other(children: seq<Node>)

  /** domhandler's `Element`: a node that is a tag. */
  type Element = n: Node | n.Tag? witness Tag("", map[], [])

  /** The value `parseDocument` returns; the extractor reads only its children. */
  datatype Document = Document(children: seq<Node>)
}
