/** What jsTree's checkboxes and its traversal have in common: a document tree whose root stands for the container. */
module JsTree {
  import opened Dom

  /** The items: all nodes but the container. */
  predicate Item(t: Node, p: Path) {
    p != [] && Has(t, p)
  }
}
