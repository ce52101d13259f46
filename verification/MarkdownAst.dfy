/** The Markdown syntax tree that the Aurora pipeline sends to the renderers. */
module MarkdownAst {
  import opened Wrappers

  datatype List<+T> = Nil | Cons(head: T, tail: List<T>)

  /** Inline containers that differ only in the tag they render to. */
  datatype Mark = Strong | Emphasis | Strikethrough

  /** A URL together with the flag asking for asset conversion. Converting and filtering it is foreign code. */
  datatype Url = Url(raw: string, asset: bool)

  datatype Inline =
    | Text(value: string)
    | Marked(mark: Mark, kids: List<Inline>)
    | Code(value: string)
    | Link(href: Url, title: Option<string>, kids: List<Inline>)
    | Image(src: Url, alt: string, title: Option<string>)
    | Break
    | Math(content: string, display: bool)
    | Custom(kind: string, text: Option<string>, inner: Option<List<Inline>>)

  datatype Block =
    | Paragraph(kids: List<Inline>)
    | Heading(level: nat, kids: List<Inline>)
    | CodeBlock(mermaid: bool, lang: string, code: string)
    | Quote(blocks: List<Block>)
    | Itemized(ordered: bool, items: List<List<Block>>)
    | Table(header: List<List<Inline>>, rows: List<List<List<Inline>>>, wrapper: Option<string>)
    | Rule

  /** `text || ""` */
  function OrEmpty(text: Option<string>): string {
    if text.Some? then text.value else ""
  }
}
