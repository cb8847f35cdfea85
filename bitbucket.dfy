/** The values the Bitbucket Cloud REST API (version 2.0) exchanges with the client. */
module Bitbucket {

  /** A value that may be absent: Java's nullable references. */
  datatype Option<+T> = None | Some(value: T)

  /** A user account. Only the UUID takes part in any decision the client makes. */
  datatype Author = Author(uuid: string, displayName: string)

  /** Where an inline (file-level) review comment is anchored; file-level comments carry no line. */
  datatype Inline = Inline(path: string, line: Option<int>)

  /** A pull-request comment. A global comment has no inline anchor. */
  datatype Comment = Comment(id: int, content: string, author: Option<Author>, inline: Option<Inline>)

  /** A pull request; the client only passes these through. */
  datatype PullRequest = PullRequest(id: int, title: string, sourceBranch: string, destinationBranch: string)

  /** One page of a paginated listing: its items and the absolute URL of the following page, if any. */
  datatype Page<T> = Page(values: seq<T>, next: Option<string>)

  /** An HTTP request as the server receives it. A POST carries the raw text of the comment it creates. */
  datatype Request = Get(url: string) | Post(url: string, content: string) | Delete(url: string)
}
