/** Nodes and relationships of the knowledge graph, with the fields and the labels
    the modelled code looks at; every other label is an OtherLabel. */
module GraphTypes {
  import opened Options

  type Id = string

  datatype NodeLabel =
    | Folder | File | Section
    | Class | Interface | Service | Controller
    | Community
    | OtherLabel(labelName: string)

  datatype RelationshipType =
    | Contains | StepInProcess | Defines | MemberOf | BelongsToArea
    | HasMethod | HasProperty | HasAction
    | OtherRelation(relationName: string)

  datatype GraphNode =
    GraphNode(id: Id, kind: NodeLabel, name: string, filePath: string, heuristicLabel: Option<string>)

  datatype GraphRelationship =
    GraphRelationship(id: Id, sourceId: Id, targetId: Id, relType: RelationshipType)

  /** `text.contains(part)` */
  predicate ContainsText(text: string, part: string) {
    exists i :: 0 <= i <= |text| && part <= text[i..]
  }
}
