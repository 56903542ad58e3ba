/** The display side: the nodes the renderer creates and the page regions
    they are appended to. */
module Dom {
  import opened Util

  /** The elements the renderer creates. A quote's footer is part of its
      blockquote, never a node of its own. Alert is the red error paragraph. */
  datatype Node =
    | H2(text: string)
    | H3(text: string)
    | P(text: string)
    | Img(src: string, alt: string)
    | Pre(text: string)
    | Blockquote(text: string, footer: Option<string>)
    | Alert(text: string)

  /** The placeholder shown while a payload is being fetched. */
  const LoadingMessage: Node := P("Loading...")

  /** The message shown when no payload arrived. */
  const FailureMessage: Node := Alert("Failed to load content.")

  /** A page element whose child list the renderer changes in place. */
  class Region {
    var children: seq<Node>

    constructor ()
      ensures children == []
    {
      children := [];
    }

    /** appendChild: the new node goes last, nothing else moves. */
    method AppendChild(n: Node)
      modifies this
      ensures children == old(children) + [n]
    {
      children := children + [n];
    }

    /** Setting innerHTML to the empty string. */
    method Clear()
      modifies this
      ensures children == []
    {
      children := [];
    }

    /** Setting innerHTML to a single element. */
    method ReplaceChildren(n: Node)
      modifies this
      ensures children == [n]
    {
      children := [n];
    }
  }
}
