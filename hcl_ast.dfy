/**
 * The part of an HCL syntax tree that the extraction pipeline reads. The tree is produced
 * by the HCL library's parser; only the shape the pipeline inspects is modelled.
 */
module HclAst {
  import opened Wrappers

  /**
   * A group of adjacent comments: the raw text of each comment, markers included,
   * and the line and column where the group starts.
   */
  datatype CommentGroup = CommentGroup(list: seq<string>, line: int, col: int)

  /** An element of a list value: a literal token, or any other node (a nested list, an object, ...). */
  datatype ListElement = LiteralElement(text: string) | OtherElement

  /** The value of an attribute inside a block body. */
  datatype AttrValue =
    | LiteralValue(text: string)
    | ListValue(elements: seq<ListElement>)
    | OtherValue

  /** `keys = value` inside a block body; `keys` are the raw key tokens. */
  datatype Attribute = Attribute(keys: seq<string>, value: AttrValue)

  /** The body of a top-level item: an object of attributes, or anything else. */
  datatype Body = ObjectBody(attributes: seq<Attribute>) | OtherBody

  /** A top-level item such as `resource "aws_ami" "ami" { ... }`: its raw key tokens, body and leading comment. */
  datatype Item = Item(keys: seq<string>, body: Body, leadComment: Option<CommentGroup>)

  /** A parsed file: its top-level items in order and all of its comment groups. */
  datatype File = File(items: seq<Item>, comments: seq<Option<CommentGroup>>)
}
