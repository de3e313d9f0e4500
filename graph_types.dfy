/**
 * The structs of thesoup/types/graph.hpp shared by the graphs and the graph
 * algorithms: a neighbour (an edge label and the vertex it leads to) and a
 * directed edge (from, label, to).
 */
module GraphTypes {

  /** `Neighbour<VID, EID>`. */
  datatype Neighbour<VID, EID> = Neighbour(edge: EID, vertex: VID)

  /** `Edge<VID, EID>`: a directed edge labelled `edgeType`. */
  datatype Edge<VID, EID> = Edge(from: VID, edgeType: EID, to: VID)
}
