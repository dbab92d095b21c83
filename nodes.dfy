/**
 * The documentation tree that the `rest` library builds and hands to the
 * printer. The node classes themselves are not part of this model; only the
 * attributes the printer reads (`root?`, `level`, `to_s`, `id`, `children`,
 * `parameters`, `text`, `name`, `schema`) appear, as datatype fields.
 */
module RestNodes {
  import opened Wrappers

  datatype Node =
    | Section(title: string, level: nat, isRoot: bool, children: seq<Node>)
    | Request(id: string, title: string, parameters: seq<string>, children: seq<Node>)
    | Text(lines: seq<string>)
    | Parameter(name: string)
    | Host(name: string)
    | Result(name: string)
    | Body(name: string)
    | XmlResult(name: string, schema: Option<string>)
    | XmlBody(name: string, schema: Option<string>)
    | Contents
    | Version(version: string)

  /** A `Request` occurs below section `s`, reached through sections only. */
  predicate HasRequest(s: Node)
    decreases s
  {
    s.Section? && AnyRequest(s.children)
  }

  /** Some node of `ns` is a request or a section with a request below it. */
  predicate AnyRequest(ns: seq<Node>)
    decreases ns
  {
    exists i :: 0 <= i < |ns| && (ns[i].Request? || HasRequest(ns[i]))
  }
}
