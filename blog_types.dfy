/** The blog's record types (src/blog/types.ts). */
module BlogTypes {
  import opened Wrappers

  datatype AuthorType = Person | Organization

  /** `kind` is the author's optional `type` field. */
  datatype BlogAuthor = BlogAuthor(name: string, role: Option<string>, kind: Option<AuthorType>)

  datatype BlogCitation = BlogCitation(text: string, url: string)  // the source calls `text` `label`, a keyword here

  datatype ContentBlock =
    | Paragraph(text: string)
    | Image(src: string, alt: string, caption: Option<string>)

  datatype BlogPost = BlogPost(
    slug: string,
    title: string,
    description: string,
    publishedAt: string,
    updatedAt: Option<string>,
    author: BlogAuthor,
    tags: seq<string>,
    content: seq<ContentBlock>,
    citations: Option<seq<BlogCitation>>,
    methodology: Option<seq<string>>)
}
