/** The numbers by which the nodes of all graphs go. */
module Nodes {

  type NodeID = nat
}
