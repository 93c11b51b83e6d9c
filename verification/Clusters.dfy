/** Clusters and their connections. */
module Clusters {

  type Name = string

  /** A connection between a parent and its child. */
  datatype Link = Link(parent: Name, child: Name)
}
