/** The parts of a FIX dictionary that the codec and the validator read. */
module Specs {
  import opened ByteStrings

  datatype GroupSpec = GroupSpec(
    firstTag: int,
    requiredTags: set<int>,
    tags: set<int>,
    nestedGroups: map<int, GroupSpec>)

  datatype MessageSpec = MessageSpec(
    requiredTags: set<int>,
    tags: set<int>,
    groups: map<int, GroupSpec>)

  /** A field definition; values holds the allowed enum values, empty when any value will do. */
  datatype FixTag = FixTag(fieldType: string, values: set<bytes>)

  datatype FixSpec = FixSpec(
    tagDefs: map<int, FixTag>,
    messagesByType: map<bytes, MessageSpec>)
}
