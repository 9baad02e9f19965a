/** The parts of the page's markup the script reads, as plain values. */
module Markup {

  datatype Option<T> = None | Some(value: T)

  /** What the script reads from one `.job-card` element: the text of its
      first `h3` (None when there is none), the text of the first `strong`
      inside a `p` (None when there is none), and the texts of its `p`
      elements in document order. */
  datatype JobCard = JobCard(heading: Option<string>, strong: Option<string>, paragraphs: seq<string>)

  /** The card's `style.display` after a search: 'flex' or 'none'. */
  datatype Display = Flex | Hidden

  /** `node?.textContent || fallback`: a missing node and an empty text are
      both falsy, so both give the fallback. */
  function TextOr(node: Option<string>, fallback: string): (r: string)
    ensures fallback != [] ==> r != []
    ensures r == fallback || node == Some(r)
    ensures node.Some? && node.value != [] ==> r == node.value
  {
    if node.Some? && node.value != [] then node.value else fallback
  }
}
