/**
 * The part of the ESTree / TSESTree syntax tree that the three rules inspect.
 * Every node carries `nid`, the identity of the node object in the host's
 * tree: two distinct node objects have distinct ids, so the source's
 * reference comparisons (`parent.object === node`) become `nid` comparisons.
 * Node types the rules never look into are collapsed into `OtherNode`.
 */
module Estree {
  import opened Wrappers

  type NodeId = nat

  datatype Node = Node(nid: NodeId, kind: Kind)

  /** The `value` of a `Literal`: a string, or anything else (number, boolean, null, RegExp, bigint). */
  datatype LiteralValue = StringValue(str: string) | NonStringValue

  datatype Kind =
    | Identifier(name: string)
    | MemberExpression(obj: Node, property: Node)        // `object.property`, computed or not
    | CallExpression(callee: Node)
    | ChainExpression(expression: Node)                  // `a?.b`
    | ThisExpression
    | Super
    | Literal(value: LiteralValue)
    | ExpressionStatement(expression: Node)
    | FunctionDeclaration(functionId: Option<Node>)      // `id` is null in `export default function () {}`
    | VariableDeclarator(id: Node, init: Option<Node>)
    | ArrowFunctionExpression
    | JSXIdentifier(name: string)
    | JSXOpeningElement(elementName: Node, attributes: seq<Node>)
    | JSXAttribute(attributeName: Node)
    | JSXSpreadAttribute
    | OtherNode(nodeType: string)
}
