/** The DOM as the parser sees it: nodes are foreign objects that are only read. */
module Dom {
  import opened Wrappers

  /** `Node.ELEMENT_NODE` */
  const ELEMENT_NODE: int := 1
  /** `Node.TEXT_NODE` */
  const TEXT_NODE: int := 3

  /** A DOM node. `nodeValue` is the character data of a text node, `baseUri` the node's
      `baseURI` (absent when it is `null` or `undefined`), and `handle` stands for the
      node's identity and everything else about it that only foreign code reads. */
  datatype DomNode = DomNode(nodeType: int, nodeValue: string, baseUri: Option<string>, handle: nat)

  /** `new XMLSerializer().serializeToString(node)`: the markup of a node, or `None`
      when the serializer throws. */
  type Serializer = DomNode -> Option<string>
}
